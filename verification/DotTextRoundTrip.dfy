/** The text round trip: what `parse(to_dot_string(g))` gives for every graph
    `g` that `parse` returns (crates/attractor-dot/src/lib.rs, parser.rs, serializer.rs). */
module DotTextRoundTrip {
  import opened Wrappers
  import opened DotAst
  import opened DotLex
  import opened DotGrammar
  import opened DotPrint
  import opened DotLexemes
  import opened DotReadBack

  // ---------------------------------------------------------------------
  // Subgraph statements
  // ---------------------------------------------------------------------

  lemma StatementsSkipWs(s: string)
    ensures Statements(SkipWs(s)) == Statements(s)
  {
    hide SkipWs, OneStatement;
    SkipWsTwice(s);
  }

  /** A subgraph statement once its opening brace is found. */
  lemma SubgraphBrace(s: string, rest: string, inner: string)
    requires "subgraph" <= s && rest == s[8..]
    requires SkipWs(OptionalName(SkipWs(rest)).1) == "{" + inner
    ensures SubgraphStmt(s) ==
      match Statements(inner)
      case Ok(body, rest1) =>
        var s2 := SkipWs(rest1);
        if s2 != "" && s2[0] == '}' then Ok(Subgraph(OptionalName(SkipWs(rest)).0, body), EndStatement(s2[1..]))
        else Backtrack
      case Cut => Cut
      case Backtrack => Backtrack
  {
    hide Statements, OptionalName, EndStatement, SkipWs;
    var open := "{" + inner;
    assert open[1..] == inner;
    StatementsSkipWs(inner);
  }

  /** The text after `subgraph` up to its brace. */
  lemma NameAt(name: Option<string>, inner: string)
    requires name.Some? ==> IsIdent(name.value)
    ensures var r := OptionalName(SkipWs(PrintName(name, " {" + inner)));
      r.0 == name && SkipWs(r.1) == "{" + inner
  {
    hide SkipWs, Identifier;
    var tail := " {" + inner;
    assert tail == " " + ("{" + inner);
    SkipWsOne(' ', "{" + inner);
    SkipWsNone("{" + inner);
    match name {
      case None =>
        NoIdent("{" + inner);
      case Some(id) =>
        SkipWsOne(' ', id + tail);
        SkipWsNone(id + tail);
        IdentAt(id, tail);
    }
  }

  lemma SubgraphText(name: Option<string>, inner: string)
    requires name.Some? ==> IsIdent(name.value)
    ensures var s := "subgraph" + PrintName(name, " {" + inner);
      SubgraphStmt(s) ==
      match Statements(inner)
      case Ok(body, rest1) =>
        var s2 := SkipWs(rest1);
        if s2 != "" && s2[0] == '}' then Ok(Subgraph(name, body), EndStatement(s2[1..])) else Backtrack
      case Cut => Cut
      case Backtrack => Backtrack
  {
    hide SubgraphStmt, Statements, OptionalName, EndStatement, SkipWs, PrintName;
    var rest := PrintName(name, " {" + inner);
    NameAt(name, inner);
    Drop("subgraph", rest);
    SubgraphBrace("subgraph" + rest, rest, inner);
  }

  /** A statement that starts with `s` is a subgraph, or falls through to a node. */
  lemma DispatchSubgraph(rest: string)
    ensures var s := "subgraph" + rest;
      OneStatement(s) ==
      match SubgraphStmt(s) case Ok(st, rest) => Ok(st, rest) case Cut => Cut case Backtrack => NodeOrEdge(s)
  {
    hide OneStatement, SubgraphStmt, NodeOrEdge, KeywordBlock;
    var s := "subgraph" + rest;
    OtherKeyword("graph", s);
    OtherKeyword("node", s);
    OtherKeyword("edge", s);
    DispatchWord(s);
  }

  lemma ReadSubgraph(name: Option<string>, body: seq<Statement>, inner: string, more: string)
    requires name.Some? ==> IsIdent(name.value)
    requires Statements(inner) == Ok(body, "}\n" + more) && Resumes(more)
    ensures OneStatement("subgraph" + PrintName(name, " {" + inner)) == Ok(Subgraph(name, body), SkipWs(more))
  {
    hide OneStatement, SubgraphStmt, NodeOrEdge, Statements, SkipWs, PrintName, OptionalBlock;
    SubgraphText(name, inner);
    SkipWsNone("}\n" + more);
    assert ("}\n" + more)[1..] == "\n" + more;
    AfterLine(more);
    DispatchSubgraph(PrintName(name, " {" + inner));
  }

  /** A word before a brace whose body does not parse is at best read as a
      node, and then the brace itself is left over. */
  lemma WordBeforeBrace(id: string, inner: string)
    requires IsIdent(id) && Statements(inner).IsFailure()
    ensures var r := OneStatement(id + (" {" + inner)); r.IsFailure() || r.rest == "{" + inner
  {
    hide OneStatement, SubgraphStmt, NodeOrEdge, Statements, SkipWs, KeywordBlock, Identifier, OptionalBlock, OptionalName;
    var tail := " {" + inner;
    var s := id + tail;
    assert tail == " " + ("{" + inner);
    SkipWsOne(' ', "{" + inner);
    SkipWsNone("{" + inner);
    KeywordMiss("graph", id, tail);
    KeywordMiss("node", id, tail);
    KeywordMiss("edge", id, tail);
    DispatchWord(s);
    IdentAt(id, tail);
    NoBlock("{" + inner);
    BareWord(s, id, tail);
    SubgraphUnread(id, inner);
  }

  lemma SubgraphUnread(id: string, inner: string)
    requires IsIdent(id) && Statements(inner).IsFailure()
    ensures SubgraphStmt(id + (" {" + inner)).IsFailure()
  {
    hide SubgraphStmt, Statements, SkipWs, OptionalName, EndStatement;
    var tail := " {" + inner;
    var s := id + tail;
    assert tail == " " + ("{" + inner);
    SkipWsOne(' ', "{" + inner);
    SkipWsNone("{" + inner);
    if "subgraph" <= s {
      PrefixOfWord("subgraph", id, tail);
      var part := id[8..];
      NameThen(part, tail);
      if part == "" || IsIdent(part) {
        SubgraphBrace(s, part + tail, inner);
      } else {
        NoBrace(s, part + tail);
      }
    } else {
      NotSubgraph(s);
    }
  }

  /** Reading goes wrong at the statement at the start of `s`. */
  ghost predicate Stuck(s: string) {
    var r := OneStatement(s);
    r.IsFailure() || Statements(r.rest).IsFailure()
  }

  lemma StuckStatements(s: string)
    requires Stuck(s) && s != "" && s[0] != '}' && !IsSpace(s[0])
    ensures Statements(s).IsFailure()
  {
    hide OneStatement, SkipWs;
    SkipWsNone(s);
  }

  lemma WordStuck(id: string, inner: string)
    requires IsIdent(id) && Statements(inner).IsFailure()
    ensures Stuck(id + (" {" + inner)) && Statements(id + (" {" + inner)).IsFailure()
  {
    hide OneStatement, Statements;
    WordBeforeBrace(id, inner);
    DeadStart("{" + inner);
    StuckStatements(id + (" {" + inner));
  }

  /** A subgraph whose body does not parse stops the parse, whatever its name. */
  lemma SubgraphStuck(name: Option<string>, inner: string)
    requires name.Some? ==> IsIdent(name.value)
    requires Statements(inner).IsFailure()
    ensures Stuck("subgraph" + PrintName(name, " {" + inner))
  {
    hide OneStatement, Statements, SubgraphStmt, NodeOrEdge, SkipWs, Identifier, OptionalBlock;
    match name {
      case None =>
        WordStuck("subgraph", inner);
      case Some(id) =>
        var word := id + (" {" + inner);
        var tail := " " + word;
        var s := "subgraph" + tail;
        SubgraphText(name, inner);
        DispatchSubgraph(tail);
        SkipWsOne(' ', word);
        SkipWsNone(word);
        IdentAt("subgraph", tail);
        NoBlock(word);
        BareWord(s, "subgraph", tail);
        WordStuck(id, inner);
    }
  }

  // ---------------------------------------------------------------------
  // Whole statement lists
  // ---------------------------------------------------------------------

  ghost predicate AllPrinted(stmts: seq<Statement>) { forall st | st in stmts :: Printed(st) }

  ghost predicate AllReadable(stmts: seq<Statement>) { forall st | st in stmts :: Readable(st) }

  /** Text that starts a statement. */
  predicate Starts(s: string) { StartsWith(s, IsIdentStart) }

  lemma IndentedStart(depth: nat, s: string)
    requires Starts(s)
    ensures SkipWs(Indent(depth, s)) == s
  {
    hide SkipWs;
    SkipIndent(depth, s);
    SkipWsNone(s);
  }

  /** A statement comes back as itself, or the parse is stuck on it. */
  ghost predicate ReadAs(s: string, st: Statement, more: string) {
    if Readable(st) then
      var r := OneStatement(s);
      r.Ok? && r.value == st && SkipWs(r.rest) == SkipWs(more)
    else Stuck(s)
  }

  lemma LeftOver(s: string, rest: string)
    requires OneStatement(s).Ok? && OneStatement(s).rest == rest && rest != "" && rest[0] == '['
    ensures Stuck(s)
  {
    hide OneStatement, Statements;
    DeadStart(rest);
  }

  /** A bare attribute whose key has a dot is cut in two at the dot. */
  lemma DottedDecl(key: string, v: Value, more: string)
    requires IsKey(key) && !IsIdent(key)
    ensures Stuck(PrintAttr(key, v, more))
  {
    hide OneStatement, NodeOrEdge, Statements, FormatValue, SkipWs, Identifier, OptionalBlock, QualifiedLen, DottedLen, IdentLen;
    var id, dotted := KeyParts(key);
    KeySplit(key);
    var value := "=" + (FormatValue(v) + more);
    var tail := dotted + value;
    assert dotted != "" by { assert dotted == "" ==> key == id; }
    assert dotted[0] == '.' by { var a, b := DottedParts(dotted); }
    assert tail[0] == '.';
    assert key + value == id + tail;
    SkipWsNone(tail);
    FallsThrough(id, tail);
    NoBlock(tail);
    BareWord(id + tail, id, tail);
    DeadStart(tail);
  }

  lemma DeclAs(key: string, v: Value, more: string)
    requires IsKey(key) && LexValue(v) && Resumes(more)
    ensures var s := PrintAttr(key, v, "\n" + more);
      Starts(s) && ReadAs(s, GraphAttrDecl(key, v), more)
  {
    hide OneStatement, FormatValue, SkipWs, PrintAttr, IsKey, LexValue, Fits, Statements;
    AttrStart(key, v, "\n" + more);
    if IsIdent(key) {
      ReadDecl(key, v, more);
      SkipWsTwice(more);
    } else {
      DottedDecl(key, v, "\n" + more);
    }
  }

  lemma NodeAs(id: string, attrs: Attrs, more: string)
    requires IsIdent(id) && LexAttrs(attrs) && (attrs != map[] ==> !IsKeyword(id)) && Resumes(more)
    ensures var s := id + if attrs == map[] then ";\n" + more else " " + PrintBlock(attrs, "\n" + more);
      Starts(s) && ReadAs(s, Node(id, attrs), more)
  {
    hide OneStatement, SkipWs, PrintBlock, LexAttrs, Statements;
    SkipWsTwice(more);
    if attrs == map[] {
      ReadBareNode(id, more);
      SkipWsOne('\n', more);
      assert FitsAll(attrs);
    } else {
      ReadNode(id, attrs, more);
      var s := id + (" " + PrintBlock(attrs, "\n" + more));
      if !FitsAll(attrs) { LeftOver(s, OneStatement(s).rest); }
    }
  }

  lemma DefaultsAs(attrs: Attrs, more: string)
    requires LexAttrs(attrs) && Resumes(more)
    ensures var s := "node " + PrintBlock(attrs, "\n" + more); Starts(s) && ReadAs(s, NodeDefaults(attrs), more)
    ensures var s := "edge " + PrintBlock(attrs, "\n" + more); Starts(s) && ReadAs(s, EdgeDefaults(attrs), more)
  {
    hide OneStatement, SkipWs, PrintBlock, LexAttrs, FitsAll, Statements;
    SkipWsTwice(more);
    ReadNodeDefaults(attrs, more);
    ReadEdgeDefaults(attrs, more);
    if !FitsAll(attrs) {
      var s, s' := "node " + PrintBlock(attrs, "\n" + more), "edge " + PrintBlock(attrs, "\n" + more);
      LeftOver(s, OneStatement(s).rest);
      LeftOver(s', OneStatement(s').rest);
    }
  }

  lemma EdgeAs(first: string, second: string, attrs: Attrs, more: string)
    requires IsIdent(first) && IsIdent(second) && LexAttrs(attrs) && Resumes(more)
    ensures var s := PrintChain([first, second], if attrs == map[] then "\n" + more else " " + PrintBlock(attrs, "\n" + more));
      Starts(s) && ReadAs(s, Edge([first, second], attrs), more)
  {
    hide OneStatement, SkipWs, PrintBlock, PrintChain, LexAttrs, FitsAll, Statements;
    var tail := if attrs == map[] then "\n" + more else " " + PrintBlock(attrs, "\n" + more);
    SkipWsTwice(more);
    PrintPair(first, second, tail);
    ReadEdge(first, second, attrs, more);
    var s := PrintChain([first, second], tail);
    if !FitsAll(attrs) { LeftOver(s, OneStatement(s).rest); }
  }

  lemma {:induction false} SubgraphAs(name: Option<string>, body: seq<Statement>, depth: nat, more: string)
    requires (name.Some? ==> IsIdent(name.value)) && AllPrinted(body) && Resumes(more)
    ensures var s := "subgraph" + PrintName(name, " {\n" + PrintAll(body, depth + 1, Indent(depth, "}\n" + more)));
      Starts(s) && ReadAs(s, Subgraph(name, body), more)
    decreases body, 2
  {
    hide OneStatement, SkipWs, Statements, PrintName, Printed, PrintAll;
    var end := "}\n" + more;
    var text := PrintAll(body, depth + 1, Indent(depth, end));
    var inner := "\n" + text;
    assert " {\n" + text == " {" + inner;
    SkipWsTwice(more);
    SkipIndent(depth, end);
    SkipWsNone(end);
    ReadAll(body, depth + 1, Indent(depth, end));
    SkipWsOne('\n', text);
    StatementsSkipWs(inner);
    StatementsSkipWs(text);
    if AllReadable(body) {
      ReadSubgraph(name, body, inner, more);
    } else {
      SubgraphStuck(name, inner);
    }
  }

  lemma {:induction false} StatementAs(st: Statement, depth: nat, more: string)
    requires Printed(st) && Resumes(more)
    ensures var s := SkipWs(Print(st, depth, more)); Starts(s) && ReadAs(s, st, more)
    decreases st, 3
  {
    hide OneStatement, SkipWs, Statements, PrintBlock, PrintChain, PrintAttr, LexAttrs, FitsAll, IsKey, LexValue, Fits,
      Stuck, ReadAs, Indent, PrintName, PrintAll, Resumes, IsIdent;
    match st {
      case NodeDefaults(attrs) =>
        DefaultsAs(attrs, more);
        IndentedStart(depth, "node " + PrintBlock(attrs, "\n" + more));
      case EdgeDefaults(attrs) =>
        DefaultsAs(attrs, more);
        IndentedStart(depth, "edge " + PrintBlock(attrs, "\n" + more));
      case Node(id, attrs) =>
        NodeAs(id, attrs, more);
        IndentedStart(depth, id + if attrs == map[] then ";\n" + more else " " + PrintBlock(attrs, "\n" + more));
      case Edge(chain, attrs) =>
        assert chain == [chain[0], chain[1]];
        EdgeAs(chain[0], chain[1], attrs, more);
        IndentedStart(depth, PrintChain(chain, if attrs == map[] then "\n" + more else " " + PrintBlock(attrs, "\n" + more)));
      case Subgraph(name, body) =>
        SubgraphAs(name, body, depth, more);
        IndentedStart(depth, "subgraph" + PrintName(name, " {\n" + PrintAll(body, depth + 1, Indent(depth, "}\n" + more))));
      case GraphAttrDecl(key, value) =>
        DeclAs(key, value, more);
        IndentedStart(depth, PrintAttr(key, value, "\n" + more));
    }
  }

  /** One statement more at the front of a list. */
  lemma ListStep(s: string, st: Statement, more: string, rest: Parsed<seq<Statement>>)
    requires Starts(s) && ReadAs(s, st, more) && Statements(more) == rest
    ensures Readable(st) && rest.Ok? ==> Statements(s) == Ok([st] + rest.value, rest.rest)
    ensures !Readable(st) || rest.IsFailure() ==> Statements(s).IsFailure()
  {
    hide OneStatement, SkipWs, Readable;
    SkipWsNone(s);
    StatementsSkipWs(more);
    if Readable(st) {
      StatementsSkipWs(OneStatement(s).rest);
    } else {
      StuckStatements(s);
    }
  }

  /** MAIN RESULT on text. A printed statement list is read back as itself if
      and only if all its durations fit and no bare key has a dot; otherwise it
      does not parse. */
  lemma {:induction false} ReadAll(stmts: seq<Statement>, depth: nat, more: string)
    requires AllPrinted(stmts) && Closes(more)
    ensures Resumes(PrintAll(stmts, depth, more))
    ensures var r := Statements(PrintAll(stmts, depth, more));
      if AllReadable(stmts) then r == Ok(stmts, SkipWs(more)) else r.IsFailure()
    decreases stmts, 1
  {
    hide OneStatement, SkipWs, Print, Printed, Readable, ReadAs, Statements;
    if stmts == [] {
      ListEnd(more);
    } else {
      var tail := PrintAll(stmts[1..], depth, more);
      var s := Print(stmts[0], depth, tail);
      assert PrintAll(stmts, depth, more) == s;
      ReadAll(stmts[1..], depth, more);
      StatementAs(stmts[0], depth, tail);
      ListStep(SkipWs(s), stmts[0], tail, Statements(tail));
      StatementsSkipWs(s);
      assert [stmts[0]] + stmts[1..] == stmts;
      assert AllReadable(stmts) <==> (Readable(stmts[0]) && AllReadable(stmts[1..]));
    }
  }

  lemma ListEnd(more: string)
    requires Closes(more)
    ensures Statements(more) == Ok([], SkipWs(more))
  {
    hide OneStatement, SkipWs;
  }
}
