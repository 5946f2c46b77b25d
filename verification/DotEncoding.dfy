/** What comment stripping does to printed text: it re-encodes every string
    value, and nothing else. */
module DotEncoding {
  import opened Wrappers
  import opened DotAst
  import opened DotLex
  import opened DotMerge
  import opened DotComments
  import opened Order
  import opened DotPrint
  import opened DotLexemes
  import opened DotReadBack
  import opened DotTextRoundTrip

  // ---------------------------------------------------------------------
  // Re-encoded values
  // ---------------------------------------------------------------------

  /** A value after one more trip through `strip_comments`. */
  function Recode(v: Value): Value { if v.Str? then Str(Utf8(v.s)) else v }

  function RecodeAttrs(attrs: Attrs): Attrs { map k | k in attrs :: Recode(attrs[k]) }

  function RecodeNode(n: NodeDef): NodeDef { NodeDef(n.id, RecodeAttrs(n.attrs), RecodeAttrs(n.authored)) }

  function RecodeNodes(nodes: map<string, NodeDef>): map<string, NodeDef> {
    map id | id in nodes :: RecodeNode(nodes[id])
  }

  function RecodeEdge(e: EdgeDef): EdgeDef { e.(attrs := RecodeAttrs(e.attrs)) }

  function RecodeEdges(edges: seq<EdgeDef>): seq<EdgeDef> {
    if edges == [] then [] else [RecodeEdge(edges[0])] + RecodeEdges(edges[1..])
  }

  function RecodeSubgraph(sg: SubgraphDef): SubgraphDef {
    SubgraphDef(sg.name, RecodeAttrs(sg.attrs), RecodeNodes(sg.nodes), RecodeEdges(sg.edges),
                RecodeAttrs(sg.nodeDefaults), RecodeAttrs(sg.edgeDefaults))
  }

  function RecodeSubgraphs(sgs: seq<SubgraphDef>): seq<SubgraphDef> {
    if sgs == [] then [] else [RecodeSubgraph(sgs[0])] + RecodeSubgraphs(sgs[1..])
  }

  function RecodeScope(sc: Scope): Scope {
    Scope(RecodeAttrs(sc.attrs), RecodeNodes(sc.nodes), RecodeEdges(sc.edges), RecodeSubgraphs(sc.subgraphs),
          RecodeAttrs(sc.nodeDefaults), RecodeAttrs(sc.edgeDefaults))
  }

  /** The graph with every string value re-encoded. */
  function RecodeGraph(g: DotGraph): DotGraph {
    Graph(g.name, RecodeScope(Scope(g.attrs, g.nodes, g.edges, g.subgraphs, g.nodeDefaults, g.edgeDefaults)))
  }

  function RecodeStmt(st: Statement): Statement
    decreases st, 0
  {
    match st
    case GraphAttrs(attrs) => GraphAttrs(RecodeAttrs(attrs))
    case NodeDefaults(attrs) => NodeDefaults(RecodeAttrs(attrs))
    case EdgeDefaults(attrs) => EdgeDefaults(RecodeAttrs(attrs))
    case Node(id, attrs) => Node(id, RecodeAttrs(attrs))
    case Edge(chain, attrs) => Edge(chain, RecodeAttrs(attrs))
    case Subgraph(name, body) => Subgraph(name, RecodeStmts(body))
    case GraphAttrDecl(key, value) => GraphAttrDecl(key, Recode(value))
  }

  function RecodeStmts(stmts: seq<Statement>): seq<Statement>
    decreases stmts, 1
  {
    if stmts == [] then [] else [RecodeStmt(stmts[0])] + RecodeStmts(stmts[1..])
  }

  // ---------------------------------------------------------------------
  // Re-encoding commutes with merging
  // ---------------------------------------------------------------------

  lemma RecodeUnion(a: Attrs, b: Attrs)
    ensures RecodeAttrs(a + b) == RecodeAttrs(a) + RecodeAttrs(b)
  {
    hide Recode;
  }

  lemma RecodeInsert(nodes: map<string, NodeDef>, n: NodeDef)
    ensures RecodeNodes(nodes[n.id := n]) == RecodeNodes(nodes)[n.id := RecodeNode(n)]
  {
    hide RecodeNode;
  }

  lemma RecodeMentioned(chain: seq<string>, defaults: Attrs, nodes: map<string, NodeDef>)
    ensures RecodeNodes(Mentioned(chain, defaults) + nodes)
         == Mentioned(chain, RecodeAttrs(defaults)) + RecodeNodes(nodes)
  {
    hide RecodeNode, RecodeAttrs;
    forall id | id in chain ensures RecodeNode(NodeDef(id, defaults, map[])) == NodeDef(id, RecodeAttrs(defaults), map[]) {
      RecodeBare(id, defaults);
    }
  }

  lemma RecodeBare(id: string, defaults: Attrs)
    ensures RecodeNode(NodeDef(id, defaults, map[])) == NodeDef(id, RecodeAttrs(defaults), map[])
  {
    assert RecodeAttrs(map[]) == map[];
  }

  lemma {:induction false} RecodeEdgesConcat(a: seq<EdgeDef>, b: seq<EdgeDef>)
    ensures RecodeEdges(a + b) == RecodeEdges(a) + RecodeEdges(b)
    decreases |a|
  {
    hide RecodeEdge;
    if a == [] {
      assert a + b == b;
    } else {
      assert (a + b)[1..] == a[1..] + b;
      RecodeEdgesConcat(a[1..], b);
    }
  }

  lemma {:induction false} RecodeLinks(chain: seq<string>, attrs: Attrs)
    ensures RecodeEdges(Links(chain, attrs)) == Links(chain, RecodeAttrs(attrs))
    decreases |chain|
  {
    hide RecodeAttrs;
    if |chain| >= 2 {
      RecodeLinks(chain[1..], attrs);
      assert Links(chain, attrs)[1..] == Links(chain[1..], attrs);
    }
  }

  lemma {:induction false} RecodeSubgraphsConcat(a: seq<SubgraphDef>, b: seq<SubgraphDef>)
    ensures RecodeSubgraphs(a + b) == RecodeSubgraphs(a) + RecodeSubgraphs(b)
    decreases |a|
  {
    hide RecodeSubgraph;
    if a == [] {
      assert a + b == b;
    } else {
      assert (a + b)[1..] == a[1..] + b;
      RecodeSubgraphsConcat(a[1..], b);
    }
  }

  lemma RecodeOpen(nodeDefaults: Attrs, edgeDefaults: Attrs)
    ensures RecodeScope(Open(nodeDefaults, edgeDefaults)) == Open(RecodeAttrs(nodeDefaults), RecodeAttrs(edgeDefaults))
  {
    assert RecodeAttrs(map[]) == map[] && RecodeNodes(map[]) == map[];
  }

  lemma RecodeNested(sc: Scope, name: Option<string>, inner: Scope)
    ensures RecodeSubgraphs(sc.subgraphs + [AsSubgraph(name, inner)] + inner.subgraphs)
         == RecodeScope(sc).subgraphs + [AsSubgraph(name, RecodeScope(inner))] + RecodeScope(inner).subgraphs
  {
    hide RecodeAttrs, RecodeNodes, RecodeEdges;
    var one := [AsSubgraph(name, inner)];
    RecodeSubgraphsConcat(sc.subgraphs + one, inner.subgraphs);
    RecodeSubgraphsConcat(sc.subgraphs, one);
    assert RecodeSubgraphs(one) == [RecodeSubgraph(one[0])];
  }

  lemma RecodeEdgeStmt(sc: Scope, chain: seq<string>, attrs: Attrs)
    ensures RecodeScope(Apply(sc, Edge(chain, attrs))) == Apply(RecodeScope(sc), Edge(chain, RecodeAttrs(attrs)))
  {
    hide RecodeAttrs, RecodeNodes, RecodeEdges, RecodeSubgraphs, Mentioned, Links;
    RecodeUnion(sc.edgeDefaults, attrs);
    RecodeLinks(chain, sc.edgeDefaults + attrs);
    RecodeEdgesConcat(sc.edges, Links(chain, sc.edgeDefaults + attrs));
    RecodeMentioned(chain, sc.nodeDefaults, sc.nodes);
  }

  lemma RecodeNodeStmt(sc: Scope, id: string, attrs: Attrs)
    ensures RecodeScope(Apply(sc, Node(id, attrs))) == Apply(RecodeScope(sc), Node(id, RecodeAttrs(attrs)))
  {
    hide RecodeAttrs, RecodeNodes, RecodeEdges, RecodeSubgraphs;
    RecodeInsert(sc.nodes, NodeDef(id, sc.nodeDefaults + attrs, attrs));
    RecodeUnion(sc.nodeDefaults, attrs);
  }

  lemma RecodeDecl(sc: Scope, key: string, value: Value)
    ensures RecodeScope(Apply(sc, GraphAttrDecl(key, value))) == Apply(RecodeScope(sc), GraphAttrDecl(key, Recode(value)))
  {
    hide RecodeAttrs, RecodeNodes, RecodeEdges, RecodeSubgraphs;
    RecodeUnion(sc.attrs, map[key := value]);
    RecodeOne(key, value);
    assert sc.attrs + map[key := value] == sc.attrs[key := value];
    assert RecodeAttrs(sc.attrs) + map[key := Recode(value)] == RecodeAttrs(sc.attrs)[key := Recode(value)];
  }

  lemma {:induction false} RecodeApply(sc: Scope, st: Statement)
    ensures RecodeScope(Apply(sc, st)) == Apply(RecodeScope(sc), RecodeStmt(st))
    decreases st, 0
  {
    hide RecodeAttrs, RecodeNodes, RecodeEdges, RecodeSubgraphs, MergeFrom, Mentioned, Links, Recode;
    match st
    case GraphAttrs(attrs) => RecodeUnion(sc.attrs, attrs);
    case NodeDefaults(attrs) => RecodeUnion(sc.nodeDefaults, attrs);
    case EdgeDefaults(attrs) => RecodeUnion(sc.edgeDefaults, attrs);
    case Node(id, attrs) => RecodeNodeStmt(sc, id, attrs);
    case Edge(chain, attrs) => RecodeEdgeStmt(sc, chain, attrs);
    case Subgraph(name, body) =>
      RecodeMerge(Open(sc.nodeDefaults, sc.edgeDefaults), body);
      RecodeOpen(sc.nodeDefaults, sc.edgeDefaults);
      RecodeNested(sc, name, MergeFrom(Open(sc.nodeDefaults, sc.edgeDefaults), body));
    case GraphAttrDecl(key, value) => RecodeDecl(sc, key, value);
  }

  lemma RecodeOne(key: string, value: Value)
    ensures RecodeAttrs(map[key := value]) == map[key := Recode(value)]
  {
  }

  lemma {:induction false} RecodeMerge(sc: Scope, stmts: seq<Statement>)
    ensures RecodeScope(MergeFrom(sc, stmts)) == MergeFrom(RecodeScope(sc), RecodeStmts(stmts))
    decreases stmts, 1
  {
    hide RecodeScope, Apply, RecodeStmt;
    if stmts != [] {
      RecodeApply(sc, stmts[0]);
      RecodeMerge(Apply(sc, stmts[0]), stmts[1..]);
      assert RecodeStmts(stmts)[1..] == RecodeStmts(stmts[1..]);
    }
  }

  // ---------------------------------------------------------------------
  // Re-encoding commutes with printing
  // ---------------------------------------------------------------------

  lemma Utf8Prefix(a: string, b: string)
    requires IsAscii(a)
    ensures Utf8(a + b) == a + Utf8(b)
  {
    hide Utf8;
    Utf8Concat(a, b);
    Utf8Ascii(a);
  }

  lemma {:induction false} EscapeConcat(a: string, b: string)
    ensures Escape(a + b) == Escape(a) + Escape(b)
    decreases |a|
  {
    if a == "" {
      assert a + b == b;
    } else {
      assert (a + b)[1..] == a[1..] + b;
      EscapeConcat(a[1..], b);
    }
  }

  lemma {:induction false} EscapePlain(s: string)
    requires forall i | 0 <= i < |s| :: s[i] != '\\' && s[i] != '"'
    ensures Escape(s) == s
  {
    if s != "" {
      EscapePlain(s[1..]);
      assert s == [s[0]] + s[1..];
    }
  }

  lemma {:induction false} EscapeUtf8(s: string)
    ensures Utf8(Escape(s)) == Escape(Utf8(s))
  {
    hide Utf8Char;
    if s != "" {
      EscapeUtf8(s[1..]);
      var head := Escape([s[0]]);
      assert [s[0]] + s[1..] == s;
      EscapeConcat([s[0]], s[1..]);
      Utf8Concat(head, Escape(s[1..]));
      EscapeConcat(Utf8Char(s[0]), Utf8(s[1..]));
      EscapeUtf8Char(s[0]);
    }
  }

  /** A multi-byte encoding has no byte that is escaped. */
  lemma MultiBytePlain(c: char)
    requires c as int >= 0x80
    ensures forall i | 0 <= i < |Utf8Char(c)| :: Utf8Char(c)[i] != '\\' && Utf8Char(c)[i] != '"'
  {
    hide Utf8Char;
    forall i | 0 <= i < |Utf8Char(c)| ensures Utf8Char(c)[i] as int >= 0x80 {}
  }

  lemma EscapeUtf8Char(c: char)
    ensures Utf8(Escape([c])) == Escape(Utf8Char(c))
  {
    hide Utf8Char;
    assert [c][1..] == "";
    var e := if c == '\\' then "\\\\" else if c == '"' then "\\\"" else [c];
    assert Escape([c]) == e + "" == e;
    if c as int < 0x80 {
      Utf8Ascii(e);
    } else {
      MultiBytePlain(c);
      EscapePlain(Utf8Char(c));
      assert Utf8([c]) == Utf8Char(c) + "";
    }
  }

  lemma {:induction false} DecimalAscii(n: nat)
    ensures IsAscii(Decimal(n))
  {
    DecimalDigits(n);
    hide Decimal;
    forall i | 0 <= i < |Decimal(n)| ensures Decimal(n)[i] as int < 0x80 { assert IsDigit(Decimal(n)[i]); }
  }

  /** Text outside strings: ASCII, with nothing the comment scanner looks at. */
  ghost predicate Bland(s: string) { IsAscii(s) && NoQuotesOrSlashes(s) }

  lemma BlandConcat(a: string, b: string)
    requires Bland(a) && Bland(b)
    ensures Bland(a + b)
  {
  }

  lemma DigitsBland(s: string)
    requires All(s, IsDigit)
    ensures Bland(s)
  {
    forall i | 0 <= i < |s| ensures s[i] as int < 0x80 && s[i] != '"' && s[i] != '/' { assert IsDigit(s[i]); }
  }

  lemma FloatAscii(lexeme: string)
    requires LexValue(Float(lexeme))
    ensures Bland(lexeme)
  {
    hide Bland, LexValue;
    var sign, whole, fraction := FloatParts(lexeme);
    SignBland(sign, lexeme);
    DigitsBland(whole);
    DigitsBland(fraction);
    DotBland();
    BlandConcat(".", fraction);
    BlandConcat(whole, "." + fraction);
    BlandConcat(sign, whole + ("." + fraction));
  }

  lemma SignBland(sign: string, s: string)
    requires sign == s[..Sign(s)]
    ensures Bland(sign)
  {
  }

  lemma DotBland()
    ensures Bland(".")
  {
  }

  /** A value's text, followed by more, re-encoded. */
  lemma FormatUtf8(v: Value, more: string)
    requires LexValue(v)
    ensures Utf8(FormatValue(v) + more) == FormatValue(Recode(v)) + Utf8(more)
  {
    hide Utf8, LexValue;
    Utf8Concat(FormatValue(v), more);
    match v
    case Str(s) =>
      Utf8Prefix("\"", Escape(s) + "\"");
      Utf8Concat(Escape(s), "\"");
      Utf8Ascii("\"");
      EscapeUtf8(s);
    case Integer(i) =>
      DecimalAscii(if i < 0 then -i else i);
      Utf8Ascii(FormatValue(v));
    case Float(lexeme) =>
      FloatAscii(lexeme);
      Utf8Ascii(lexeme);
    case Boolean(b) => Utf8Ascii(FormatValue(v));
    case Duration(millis) =>
      DecimalAscii(millis);
      Utf8Ascii(FormatValue(v));
  }

  // ---------------------------------------------------------------------
  // Printed text holds no comment
  // ---------------------------------------------------------------------

  predicate NoQuotesOrSlashes(s: string) { forall i | 0 <= i < |s| :: s[i] != '"' && s[i] != '/' }

  lemma {:induction false} CleanPrefix(a: string, b: string)
    requires NoQuotesOrSlashes(a) && Clean(b)
    ensures Clean(a + b)
    decreases |a|
  {
    if a == "" {
      assert a + b == b;
    } else {
      assert (a + b)[1..] == a[1..] + b;
      CleanPrefix(a[1..], b);
    }
  }

  lemma {:induction false} CleanEscape(s: string, more: string)
    requires Clean(more)
    ensures CleanQuoted(Escape(s) + ("\"" + more))
    decreases |s|
  {
    var end := "\"" + more;
    if s == "" {
      assert Escape(s) + end == end && end[1..] == more;
    } else {
      CleanEscape(s[1..], more);
      var rest := Escape(s[1..]) + end;
      if s[0] == '\\' || s[0] == '"' {
        assert Escape(s) + end == ['\\', s[0]] + rest;
        assert (['\\', s[0]] + rest)[2..] == rest;
      } else {
        assert Escape(s) + end == [s[0]] + rest;
        assert ([s[0]] + rest)[1..] == rest;
      }
    }
  }

  lemma FormatClean(v: Value, more: string)
    requires LexValue(v) && Clean(more)
    ensures Clean(FormatValue(v) + more)
  {
    hide Clean, CleanQuoted, LexValue;
    match v
    case Str(s) => StringClean(s, more);
    case Integer(i) =>
      DecimalDigits(if i < 0 then -i else i);
      CleanPrefix(FormatValue(v), more);
    case Float(lexeme) =>
      FloatAscii(lexeme);
      CleanPrefix(lexeme, more);
    case Boolean(b) => CleanPrefix(FormatValue(v), more);
    case Duration(millis) =>
      DecimalDigits(millis);
      CleanPrefix(FormatValue(v), more);
  }

  lemma StringClean(s: string, more: string)
    requires Clean(more)
    ensures Clean(FormatValue(Str(s)) + more)
  {
    hide CleanQuoted;
    var body := Escape(s) + ("\"" + more);
    CleanEscape(s, more);
    assert FormatValue(Str(s)) + more == "\"" + body;
    assert ("\"" + body)[1..] == body;
  }

  // ---------------------------------------------------------------------
  // Both facts, printer by printer
  // ---------------------------------------------------------------------

  /** Text outside strings is copied. */
  lemma CarryPlain(a: string, t: string, t': string)
    requires IsAscii(a) && NoQuotesOrSlashes(a) && Clean(t) && Utf8(t) == t'
    ensures Clean(a + t) && Utf8(a + t) == a + t'
  {
    hide Clean, Utf8;
    CleanPrefix(a, t);
    Utf8Prefix(a, t);
  }

  lemma IdentPlain(id: string)
    requires All(id, IsIdentChar)
    ensures IsAscii(id) && NoQuotesOrSlashes(id)
  {
    forall i | 0 <= i < |id| ensures id[i] as int < 0x80 && id[i] != '"' && id[i] != '/' { assert IsIdentChar(id[i]); }
  }

  lemma WordPlain(id: string)
    requires IsIdent(id)
    ensures IsAscii(id) && NoQuotesOrSlashes(id)
  {
    IdentPlain(id);
  }

  lemma {:induction false} DottedPlain(s: string)
    requires DottedLen(s) == |s|
    ensures IsAscii(s) && NoQuotesOrSlashes(s)
    decreases |s|
  {
    if s != "" {
      var id, rest := DottedParts(s);
      DottedPlain(rest);
      IdentPlain(id);
    }
  }

  lemma KeyPlain(key: string)
    requires IsKey(key)
    ensures IsAscii(key) && NoQuotesOrSlashes(key)
  {
    var id, rest := KeyParts(key);
    IdentPlain(id);
    DottedPlain(rest);
  }

  lemma CarryAttr(key: string, v: Value, more: string, more': string)
    requires IsKey(key) && LexValue(v) && Clean(more) && Utf8(more) == more'
    ensures Clean(PrintAttr(key, v, more)) && Utf8(PrintAttr(key, v, more)) == PrintAttr(key, Recode(v), more')
  {
    hide Clean, Utf8, FormatValue, IsKey, LexValue, Recode;
    KeyPlain(key);
    FormatClean(v, more);
    FormatUtf8(v, more);
    CarryPlain("=", FormatValue(v) + more, FormatValue(Recode(v)) + more');
    CarryPlain(key, "=" + (FormatValue(v) + more), "=" + (FormatValue(Recode(v)) + more'));
  }

  lemma {:induction false} CarryAttrs(attrs: Attrs, keys: seq<string>, more: string, more': string)
    requires LexAttrs(attrs) && forall k | k in keys :: k in attrs
    requires Clean(more) && Utf8(more) == more'
    ensures Clean(PrintAttrs(attrs, keys, more))
    ensures Utf8(PrintAttrs(attrs, keys, more)) == PrintAttrs(RecodeAttrs(attrs), keys, more')
    decreases |keys|
  {
    hide Clean, Utf8, IsKey, LexValue, Recode, PrintAttr;
    if keys != [] {
      var t, t' := PrintAttrs(attrs, keys[1..], more), PrintAttrs(RecodeAttrs(attrs), keys[1..], more');
      CarryAttrs(attrs, keys[1..], more, more');
      CarryPlain(", ", t, t');
      if |keys| == 1 {
        CarryAttr(keys[0], attrs[keys[0]], t, t');
      } else {
        CarryAttr(keys[0], attrs[keys[0]], ", " + t, ", " + t');
      }
    }
  }

  lemma CarryBlock(attrs: Attrs, more: string, more': string)
    requires LexAttrs(attrs) && Clean(more) && Utf8(more) == more'
    ensures Clean(PrintBlock(attrs, more)) && Utf8(PrintBlock(attrs, more)) == PrintBlock(RecodeAttrs(attrs), more')
  {
    hide Clean, Utf8, LexAttrs, PrintAttrs;
    var keys := Sorted(attrs.Keys);
    assert RecodeAttrs(attrs).Keys == attrs.Keys;
    CarryPlain("]", more, more');
    CarryAttrs(attrs, keys, "]" + more, "]" + more');
    CarryPlain("[", PrintAttrs(attrs, keys, "]" + more), PrintAttrs(RecodeAttrs(attrs), keys, "]" + more'));
  }

  lemma {:induction false} CarryIndent(depth: nat, t: string, t': string)
    requires Clean(t) && Utf8(t) == t'
    ensures Clean(Indent(depth, t)) && Utf8(Indent(depth, t)) == Indent(depth, t')
  {
    hide Clean, Utf8;
    if depth > 0 {
      CarryIndent(depth - 1, t, t');
      CarryPlain("    ", Indent(depth - 1, t), Indent(depth - 1, t'));
    }
  }

  /** ` [..]` and a newline, or what stands for no attributes. */
  lemma CarryTail(empty: string, attrs: Attrs, more: string, more': string)
    requires LexAttrs(attrs) && Clean(more) && Utf8(more) == more'
    requires empty == ";\n" || empty == "\n"
    ensures var t := if attrs == map[] then empty + more else " " + PrintBlock(attrs, "\n" + more);
      && Clean(t)
      && Utf8(t) == if RecodeAttrs(attrs) == map[] then empty + more' else " " + PrintBlock(RecodeAttrs(attrs), "\n" + more')
  {
    hide Clean, Utf8, LexAttrs, PrintBlock;
    assert RecodeAttrs(attrs).Keys == attrs.Keys;
    if attrs == map[] {
      CarryPlain(empty, more, more');
    } else {
      CarryPlain("\n", more, more');
      CarryBlock(attrs, "\n" + more, "\n" + more');
      CarryPlain(" ", PrintBlock(attrs, "\n" + more), PrintBlock(RecodeAttrs(attrs), "\n" + more'));
    }
  }

  lemma CarryPair(first: string, second: string, t: string, t': string)
    requires IsIdent(first) && IsIdent(second) && Clean(t) && Utf8(t) == t'
    ensures Clean(PrintChain([first, second], t)) && Utf8(PrintChain([first, second], t)) == PrintChain([first, second], t')
  {
    hide Clean, Utf8, PrintChain;
    PrintPair(first, second, t);
    PrintPair(first, second, t');
    IdentPlain(first);
    IdentPlain(second);
    CarryPlain(second, t, t');
    CarryPlain(" -> ", second + t, second + t');
    CarryPlain(first, " -> " + (second + t), " -> " + (second + t'));
  }

  lemma CarryName(name: Option<string>, t: string, t': string)
    requires (name.Some? ==> IsIdent(name.value)) && Clean(t) && Utf8(t) == t'
    ensures Clean("subgraph" + PrintName(name, t)) && Utf8("subgraph" + PrintName(name, t)) == "subgraph" + PrintName(name, t')
  {
    hide Clean, Utf8;
    match name {
      case None =>
      case Some(id) =>
        IdentPlain(id);
        CarryPlain(id, t, t');
        CarryPlain(" ", id + t, id + t');
    }
    CarryPlain("subgraph", PrintName(name, t), PrintName(name, t'));
  }

  lemma CarryDefaults(keyword: string, attrs: Attrs, more: string, more': string)
    requires keyword == "node " || keyword == "edge "
    requires LexAttrs(attrs) && Clean(more) && Utf8(more) == more'
    ensures var t := keyword + PrintBlock(attrs, "\n" + more);
      Clean(t) && Utf8(t) == keyword + PrintBlock(RecodeAttrs(attrs), "\n" + more')
  {
    hide Clean, Utf8, LexAttrs, PrintBlock;
    CarryPlain("\n", more, more');
    CarryBlock(attrs, "\n" + more, "\n" + more');
    CarryPlain(keyword, PrintBlock(attrs, "\n" + more), PrintBlock(RecodeAttrs(attrs), "\n" + more'));
  }

  lemma {:induction false} CarryStatement(st: Statement, depth: nat, more: string, more': string)
    requires Printed(st) && Clean(more) && Utf8(more) == more'
    ensures Clean(Print(st, depth, more)) && Utf8(Print(st, depth, more)) == Print(RecodeStmt(st), depth, more')
    decreases st, 3
  {
    hide Clean, Utf8, LexAttrs, LexValue, IsKey, IsIdent, PrintBlock, PrintChain, PrintAttr, PrintName, PrintAll, Indent,
      RecodeAttrs, Recode;
    match st {
      case NodeDefaults(attrs) =>
        CarryDefaults("node ", attrs, more, more');
        CarryIndent(depth, "node " + PrintBlock(attrs, "\n" + more), "node " + PrintBlock(RecodeAttrs(attrs), "\n" + more'));
      case EdgeDefaults(attrs) =>
        CarryDefaults("edge ", attrs, more, more');
        CarryIndent(depth, "edge " + PrintBlock(attrs, "\n" + more), "edge " + PrintBlock(RecodeAttrs(attrs), "\n" + more'));
      case Node(id, attrs) =>
        CarryTail(";\n", attrs, more, more');
        WordPlain(id);
        var t := if attrs == map[] then ";\n" + more else " " + PrintBlock(attrs, "\n" + more);
        CarryPlain(id, t, Utf8(t));
        CarryIndent(depth, id + t, id + Utf8(t));
      case Edge(chain, attrs) =>
        CarryTail("\n", attrs, more, more');
        assert chain == [chain[0], chain[1]];
        var t := if attrs == map[] then "\n" + more else " " + PrintBlock(attrs, "\n" + more);
        CarryPair(chain[0], chain[1], t, Utf8(t));
        CarryIndent(depth, PrintChain(chain, t), PrintChain(chain, Utf8(t)));
      case Subgraph(name, body) =>
        CarrySubgraph(name, body, depth, more, more');
      case GraphAttrDecl(key, value) =>
        CarryPlain("\n", more, more');
        CarryAttr(key, value, "\n" + more, "\n" + more');
        CarryIndent(depth, PrintAttr(key, value, "\n" + more), PrintAttr(key, Recode(value), "\n" + more'));
    }
  }

  lemma {:induction false} CarrySubgraph(name: Option<string>, body: seq<Statement>, depth: nat, more: string, more': string)
    requires (name.Some? ==> IsIdent(name.value)) && AllPrinted(body) && Clean(more) && Utf8(more) == more'
    ensures var t := Print(Subgraph(name, body), depth, more);
      Clean(t) && Utf8(t) == Print(Subgraph(name, RecodeStmts(body)), depth, more')
    decreases body, 2
  {
    hide Clean, Utf8, IsIdent, PrintName, PrintAll, Indent, Printed, RecodeStmts;
    var close, close' := Indent(depth, "}\n" + more), Indent(depth, "}\n" + more');
    CarryPlain("}\n", more, more');
    CarryIndent(depth, "}\n" + more, "}\n" + more');
    CarryAll(body, depth + 1, close, close');
    var t, t' := PrintAll(body, depth + 1, close), PrintAll(RecodeStmts(body), depth + 1, close');
    CarryPlain(" {\n", t, t');
    CarryName(name, " {\n" + t, " {\n" + t');
    CarryIndent(depth, "subgraph" + PrintName(name, " {\n" + t), "subgraph" + PrintName(name, " {\n" + t'));
  }

  lemma {:induction false} CarryAll(stmts: seq<Statement>, depth: nat, more: string, more': string)
    requires AllPrinted(stmts) && Clean(more) && Utf8(more) == more'
    ensures Clean(PrintAll(stmts, depth, more)) && Utf8(PrintAll(stmts, depth, more)) == PrintAll(RecodeStmts(stmts), depth, more')
    decreases stmts, 1
  {
    hide Clean, Utf8, Print, Printed, RecodeStmt;
    if stmts != [] {
      CarryAll(stmts[1..], depth, more, more');
      CarryStatement(stmts[0], depth, PrintAll(stmts[1..], depth, more), PrintAll(RecodeStmts(stmts[1..]), depth, more'));
      assert RecodeStmts(stmts)[1..] == RecodeStmts(stmts[1..]);
    }
  }
}
