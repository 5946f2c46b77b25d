/** `parse`, and what it returns on the output of `to_dot_string`. */
module DotTheorems {
  import opened Wrappers
  import opened DotAst
  import opened DotLex
  import opened DotGrammar
  import opened DotMerge
  import opened DotEmit
  import opened DotRoundTrip
  import opened DotComments
  import opened Order
  import opened DotPrint
  import opened DotLexemes
  import opened DotReadBack
  import opened DotTextRoundTrip
  import opened DotSound
  import opened DotEncoding

  /** Strip comments, parse, merge; `None` stands for any parse error. */
  function Parse(input: string): Option<DotGraph> {
    match Digraph(Strip(input))
    case Ok(named, _) => Some(Graph(named.0, Merge(named.1)))
    case _ => None
  }

  // ---------------------------------------------------------------------
  // Reading a printed graph
  // ---------------------------------------------------------------------

  lemma DigraphAt(name: string, stmts: seq<Statement>)
    requires IsIdent(name) && AllPrinted(stmts)
    ensures var r := Digraph("digraph " + (name + (" {\n" + PrintAll(stmts, 1, "}\n"))));
      if AllReadable(stmts) then r == Ok((name, stmts), "") else r.IsFailure()
  {
    hide Identifier, SkipWs, Statements, PrintAll, Printed, Readable;
    var body := PrintAll(stmts, 1, "}\n");
    var open := "{" + ("\n" + body);
    var named := name + (" {\n" + body);
    var s := "digraph " + named;
    assert " {\n" + body == " " + open;
    SkipWsNone(s);
    assert s[7..] == " " + named;
    SkipWsOne(' ', named);
    SkipWsNone(named);
    IdentAt(name, " " + open);
    SkipWsOne(' ', open);
    SkipWsNone(open);
    assert open[1..] == "\n" + body;
    SkipWsOne('\n', body);
    StatementsSkipWs(body);
    SkipWsNone("}\n");
    ReadAll(stmts, 1, "}\n");
    SkipWsOne('\n', "");
    SkipWsNone("");
    assert "}\n"[1..] == ['\n'] + "";
  }

  lemma PrintedClean(g: DotGraph, stmts: seq<Statement>)
    requires IsIdent(g.name) && AllPrinted(stmts) && stmts == Emit(g)
    ensures Clean(ToDot(g))
    ensures Utf8(ToDot(g)) == "digraph " + (g.name + (" {\n" + PrintAll(RecodeStmts(stmts), 1, "}\n")))
  {
    hide Clean, Utf8, PrintAll, Printed, RecodeStmts, Emit;
    CleanEnd();
    CarryAll(stmts, 1, "}\n", "}\n");
    var t, t' := PrintAll(stmts, 1, "}\n"), PrintAll(RecodeStmts(stmts), 1, "}\n");
    CarryPlain(" {\n", t, t');
    WordPlain(g.name);
    CarryPlain(g.name, " {\n" + t, " {\n" + t');
    CarryPlain("digraph ", g.name + (" {\n" + t), g.name + (" {\n" + t'));
  }

  lemma CleanEnd()
    ensures Clean("}\n") && Utf8("}\n") == "}\n"
  {
    assert "}\n"[1..] == "\n" && "\n"[1..] == "";
    Utf8Ascii("}\n");
  }

  // Re-encoding changes neither what is printed nor what can be read

  lemma RecodeLexAttrs(attrs: Attrs)
    ensures LexAttrs(attrs) ==> LexAttrs(RecodeAttrs(attrs))
    ensures FitsAll(RecodeAttrs(attrs)) <==> FitsAll(attrs)
    ensures RecodeAttrs(attrs) == map[] <==> attrs == map[]
  {
    hide IsKey;
    assert RecodeAttrs(attrs).Keys == attrs.Keys;
    if FitsAll(RecodeAttrs(attrs)) {
      forall k | k in attrs ensures Fits(attrs[k]) { assert Fits(RecodeAttrs(attrs)[k]); }
    }
  }

  lemma {:induction false} RecodePrinted(st: Statement)
    requires Printed(st)
    ensures Printed(RecodeStmt(st)) && (Readable(RecodeStmt(st)) <==> Readable(st))
    decreases st, 0
  {
    hide IsKey, IsIdent, LexAttrs, FitsAll, RecodeAttrs;
    match st
    case NodeDefaults(attrs) => RecodeLexAttrs(attrs);
    case EdgeDefaults(attrs) => RecodeLexAttrs(attrs);
    case Node(id, attrs) => RecodeLexAttrs(attrs);
    case Edge(chain, attrs) => RecodeLexAttrs(attrs);
    case Subgraph(name, body) => RecodeAllPrinted(body);
    case GraphAttrDecl(key, value) =>
  }

  lemma {:induction false} RecodeAllPrinted(stmts: seq<Statement>)
    requires AllPrinted(stmts)
    ensures AllPrinted(RecodeStmts(stmts)) && (AllReadable(RecodeStmts(stmts)) <==> AllReadable(stmts))
    decreases stmts, 1
  {
    hide Printed, Readable, RecodeStmt;
    if stmts != [] {
      RecodePrinted(stmts[0]);
      RecodeAllPrinted(stmts[1..]);
      var tail := RecodeStmts(stmts[1..]);
      assert forall x :: x in stmts <==> x == stmts[0] || x in stmts[1..];
      assert forall x :: x in [RecodeStmt(stmts[0])] + tail <==> x == RecodeStmt(stmts[0]) || x in tail;
    }
  }

  /** MAIN RESULT. Any graph the parser can return, printed and parsed again,
      comes back with its strings re-encoded, if its durations fit 64 bits of
      milliseconds and its graph- and subgraph-level keys have no dot;
      otherwise the printed text is refused. */
  lemma PrintThenParse(g: DotGraph)
    requires LexGraph(g) && Serializable(g)
    ensures Parse(ToDot(g)) == if GraphInDomain(g) then Some(RecodeGraph(g)) else None
  {
    hide LexBody, Serializable, Emit, Digraph, Merge, RecodeScope, GraphInDomain, Clean, Utf8, PrintAll, Printed, Readable;
    var stmts := Emit(g);
    GraphPrinted(g);
    PrintedClean(g, stmts);
    StripClean(ToDot(g));
    RecodeAllPrinted(stmts);
    DigraphAt(g.name, RecodeStmts(stmts));
    RoundTripExact(g);
    MergeRecoded(g, stmts);
  }

  lemma MergeRecoded(g: DotGraph, stmts: seq<Statement>)
    requires Graph(g.name, Merge(stmts)) == g
    ensures Graph(g.name, Merge(RecodeStmts(stmts))) == RecodeGraph(g)
  {
    hide MergeFrom, RecodeAttrs, RecodeNodes, RecodeEdges, RecodeSubgraphs;
    RecodeMerge(Open(map[], map[]), stmts);
    RecodeOpen(map[], map[]);
    EmptyRecoded();
  }

  lemma EmptyRecoded()
    ensures RecodeAttrs(map[]) == map[]
  {
  }

  // ---------------------------------------------------------------------
  // When re-encoding changes nothing
  // ---------------------------------------------------------------------

  predicate AsciiAttrs(attrs: Attrs) { forall k | k in attrs :: attrs[k].Str? ==> IsAscii(attrs[k].s) }

  predicate AsciiBody(attrs: Attrs, nodes: map<string, NodeDef>, edges: seq<EdgeDef>, nodeDefaults: Attrs, edgeDefaults: Attrs) {
    && AsciiAttrs(attrs) && AsciiAttrs(nodeDefaults) && AsciiAttrs(edgeDefaults)
    && (forall id | id in nodes :: AsciiAttrs(nodes[id].attrs) && AsciiAttrs(nodes[id].authored))
    && (forall i | 0 <= i < |edges| :: AsciiAttrs(edges[i].attrs))
  }

  predicate AsciiSubgraph(sg: SubgraphDef) {
    AsciiBody(sg.attrs, sg.nodes, sg.edges, sg.nodeDefaults, sg.edgeDefaults)
  }

  /** Every string value is ASCII. */
  predicate AsciiGraph(g: DotGraph) {
    && AsciiBody(g.attrs, g.nodes, g.edges, g.nodeDefaults, g.edgeDefaults)
    && forall i | 0 <= i < |g.subgraphs| :: AsciiSubgraph(g.subgraphs[i])
  }

  lemma RecodeFixed(v: Value)
    ensures Recode(v) == v <==> (v.Str? ==> IsAscii(v.s))
  {
    if v.Str? {
      Utf8Length(v.s);
      if IsAscii(v.s) { Utf8Ascii(v.s); }
    }
  }

  lemma AttrsFixed(attrs: Attrs)
    ensures RecodeAttrs(attrs) == attrs <==> AsciiAttrs(attrs)
  {
    hide Recode, IsAscii;
    forall k | k in attrs ensures Recode(attrs[k]) == attrs[k] <==> (attrs[k].Str? ==> IsAscii(attrs[k].s)) {
      RecodeFixed(attrs[k]);
    }
    if RecodeAttrs(attrs) == attrs {
      forall k | k in attrs ensures attrs[k].Str? ==> IsAscii(attrs[k].s) { assert RecodeAttrs(attrs)[k] == attrs[k]; }
    }
  }

  lemma NodesFixed(nodes: map<string, NodeDef>)
    ensures RecodeNodes(nodes) == nodes
      <==> forall id | id in nodes :: AsciiAttrs(nodes[id].attrs) && AsciiAttrs(nodes[id].authored)
  {
    hide RecodeAttrs, AsciiAttrs;
    forall id | id in nodes
      ensures RecodeNode(nodes[id]) == nodes[id] <==> (AsciiAttrs(nodes[id].attrs) && AsciiAttrs(nodes[id].authored))
    {
      AttrsFixed(nodes[id].attrs);
      AttrsFixed(nodes[id].authored);
    }
    if RecodeNodes(nodes) == nodes {
      forall id | id in nodes ensures RecodeNode(nodes[id]) == nodes[id] { assert RecodeNodes(nodes)[id] == nodes[id]; }
    }
  }

  lemma {:induction false} EdgesFixed(edges: seq<EdgeDef>)
    ensures |RecodeEdges(edges)| == |edges|
    ensures RecodeEdges(edges) == edges <==> forall i | 0 <= i < |edges| :: AsciiAttrs(edges[i].attrs)
    decreases |edges|
  {
    hide RecodeAttrs, AsciiAttrs;
    if edges != [] {
      AttrsFixed(edges[0].attrs);
      EdgesFixed(edges[1..]);
      assert RecodeEdges(edges) == edges <==> (RecodeEdge(edges[0]) == edges[0] && RecodeEdges(edges[1..]) == edges[1..]) by {
        ConsEqual(RecodeEdge(edges[0]), RecodeEdges(edges[1..]), edges);
      }
      AllSplit(edges, (e: EdgeDef) => AsciiAttrs(e.attrs));
    }
  }

  lemma ConsEqual<T>(x: T, tail: seq<T>, s: seq<T>)
    requires s != []
    ensures [x] + tail == s <==> (x == s[0] && tail == s[1..])
  {
    if [x] + tail == s {
      assert ([x] + tail)[1..] == tail;
    }
    if x == s[0] && tail == s[1..] {
      assert s == [s[0]] + s[1..];
    }
  }

  lemma AllSplit<T>(s: seq<T>, p: T -> bool)
    requires s != []
    ensures (forall i | 0 <= i < |s| :: p(s[i])) <==> (p(s[0]) && forall i | 0 <= i < |s[1..]| :: p(s[1..][i]))
  {
    if p(s[0]) && forall i | 0 <= i < |s[1..]| :: p(s[1..][i]) {
      forall i | 0 <= i < |s| ensures p(s[i]) {
        if i > 0 { assert s[i] == s[1..][i - 1]; }
      }
    }
  }

  lemma SubgraphFixed(sg: SubgraphDef)
    ensures RecodeSubgraph(sg) == sg <==> AsciiSubgraph(sg)
  {
    hide RecodeAttrs, AsciiAttrs, RecodeNodes, RecodeEdges;
    AttrsFixed(sg.attrs);
    AttrsFixed(sg.nodeDefaults);
    AttrsFixed(sg.edgeDefaults);
    NodesFixed(sg.nodes);
    EdgesFixed(sg.edges);
  }

  lemma {:induction false} SubgraphsFixed(sgs: seq<SubgraphDef>)
    ensures RecodeSubgraphs(sgs) == sgs <==> forall i | 0 <= i < |sgs| :: AsciiSubgraph(sgs[i])
    decreases |sgs|
  {
    hide RecodeSubgraph, AsciiSubgraph;
    if sgs != [] {
      SubgraphFixed(sgs[0]);
      SubgraphsFixed(sgs[1..]);
      ConsEqual(RecodeSubgraph(sgs[0]), RecodeSubgraphs(sgs[1..]), sgs);
      AllSplit(sgs, AsciiSubgraph);
    }
  }

  lemma GraphFixed(g: DotGraph)
    ensures RecodeGraph(g) == g <==> AsciiGraph(g)
  {
    hide RecodeAttrs, AsciiAttrs, RecodeNodes, RecodeEdges, RecodeSubgraphs, AsciiSubgraph;
    AttrsFixed(g.attrs);
    AttrsFixed(g.nodeDefaults);
    AttrsFixed(g.edgeDefaults);
    NodesFixed(g.nodes);
    EdgesFixed(g.edges);
    SubgraphsFixed(g.subgraphs);
  }

  // ---------------------------------------------------------------------
  // Every parsed graph
  // ---------------------------------------------------------------------

  /** Whatever the input, a parsed graph is lexically sound and serializable. */
  lemma ParsedGraphs(input: string)
    ensures Parse(input).Some? ==> LexGraph(Parse(input).value) && Serializable(Parse(input).value)
  {
    hide Strip, Serializable, LexScope;
    DigraphSound(Strip(input));
    match Digraph(Strip(input)) {
      case Ok(named, _) =>
        MergedGraphsRoundTrip(named.0, named.1);
        OpenLex();
        MergeFromLex(Open(map[], map[]), named.1);
        LexScopeGraph(named.0, Merge(named.1));
      case _ =>
    }
  }

  lemma OpenLex()
    ensures LexScope(Open(map[], map[]))
  {
    EmptyLex();
  }

  lemma LexScopeGraph(name: string, sc: Scope)
    requires LexScope(sc) && IsIdent(name)
    ensures LexGraph(Graph(name, sc))
  {
    hide LexBody, LexSubgraph;
  }

  lemma DigraphSound(s: string)
    ensures Digraph(s).Ok? ==> IsIdent(Digraph(s).value.0) && forall st | st in Digraph(s).value.1 :: Parseable(st)
  {
    hide Identifier, SkipWs, Statements, Parseable;
    var s1 := SkipWs(s);
    if "digraph" <= s1 {
      IdentSound(SkipWs(s1[7..]));
      if Identifier(SkipWs(s1[7..])).Ok? {
        var s2 := SkipWs(Identifier(SkipWs(s1[7..])).rest);
        if s2 != "" { StatementsSound(SkipWs(s2[1..])); }
      }
    }
  }

  /** MAIN RESULT. For every input that parses to `g`: printing `g` and parsing
      the text gives `g` back if and only if its strings are ASCII, its
      durations fit 64 bits of milliseconds and its graph- and subgraph-level
      keys have no dot. */
  lemma TextRoundTrip(input: string)
    ensures Parse(input).Some? ==>
      var g := Parse(input).value;
      Parse(ToDot(g)) == Some(g) <==> (AsciiGraph(g) && GraphInDomain(g))
  {
    hide Parse, LexGraph, Serializable, ToDot, RecodeGraph, AsciiGraph, GraphInDomain;
    ParsedGraphs(input);
    if Parse(input).Some? {
      var g := Parse(input).value;
      PrintThenParse(g);
      GraphFixed(g);
    }
  }

  /** The text itself is a fixed point: where the graph comes back, so does
      every character of its printed form. */
  lemma CanonicalText(input: string)
    ensures Parse(input).Some? ==>
      var g := Parse(input).value;
      AsciiGraph(g) && GraphInDomain(g) ==>
        Parse(ToDot(g)).Some? && ToDot(Parse(ToDot(g)).value) == ToDot(g) && Strip(ToDot(g)) == ToDot(g)
  {
    hide Parse, LexGraph, Serializable, RecodeGraph, AsciiGraph, GraphInDomain, ToDot;
    TextRoundTrip(input);
    ParsedGraphs(input);
    if Parse(input).Some? {
      var g := Parse(input).value;
      if AsciiGraph(g) && GraphInDomain(g) {
        StripPrinted(g);
      }
    }
  }

  lemma StripPrinted(g: DotGraph)
    requires LexGraph(g) && Serializable(g) && AsciiGraph(g)
    ensures Strip(ToDot(g)) == ToDot(g)
  {
    hide LexBody, Serializable, Clean, Utf8, PrintAll, Printed, AsciiGraph, GraphInDomain, Emit;
    GraphPrinted(g);
    PrintedClean(g, Emit(g));
    StripClean(ToDot(g));
    GraphFixed(g);
    EmitAscii(g);
  }

  // Printing an ASCII graph prints only its own, ASCII, values

  lemma {:induction false} RecodeConcat(a: seq<Statement>, b: seq<Statement>)
    ensures RecodeStmts(a + b) == RecodeStmts(a) + RecodeStmts(b)
    decreases |a|
  {
    hide RecodeStmt;
    if a == [] {
      assert a + b == b;
    } else {
      assert (a + b)[1..] == a[1..] + b;
      RecodeConcat(a[1..], b);
    }
  }

  /** Statements that re-encoding leaves alone. */
  ghost predicate Fixed(stmts: seq<Statement>) { RecodeStmts(stmts) == stmts }

  lemma FixedConcat(a: seq<Statement>, b: seq<Statement>)
    requires Fixed(a) && Fixed(b)
    ensures Fixed(a + b)
  {
    hide RecodeStmts;
    RecodeConcat(a, b);
  }

  lemma FixedOne(st: Statement)
    requires RecodeStmt(st) == st
    ensures Fixed([st])
  {
    assert [st][1..] == [] && RecodeStmts([]) == [];
  }

  lemma {:induction false} AttrsEmitFixed(attrs: Attrs, keys: seq<string>)
    requires AsciiAttrs(attrs) && forall k | k in keys :: k in attrs
    ensures Fixed(EmitAttrs(attrs, keys))
    decreases |keys|
  {
    hide IsAscii, RecodeStmts, Recode;
    if keys == [] {
      FixedNone();
    } else {
      RecodeFixed(attrs[keys[0]]);
      FixedOne(GraphAttrDecl(keys[0], attrs[keys[0]]));
      AttrsEmitFixed(attrs, keys[1..]);
      FixedConcat([GraphAttrDecl(keys[0], attrs[keys[0]])], EmitAttrs(attrs, keys[1..]));
    }
  }

  lemma FixedNone()
    ensures Fixed([])
  {
  }

  lemma DefaultsFixed(attrs: Attrs)
    requires AsciiAttrs(attrs)
    ensures Fixed(DefaultsBlock(attrs)) && Fixed(EdgeDefaultsBlock(attrs))
  {
    hide AsciiAttrs, RecodeAttrs, RecodeStmts;
    FixedNone();
    AttrsFixed(attrs);
    FixedOne(NodeDefaults(attrs));
    FixedOne(EdgeDefaults(attrs));
  }

  lemma {:induction false} EdgesEmitFixed(edges: seq<EdgeDef>)
    requires forall i | 0 <= i < |edges| :: AsciiAttrs(edges[i].attrs)
    ensures Fixed(EmitEdges(edges))
    decreases |edges|
  {
    hide AsciiAttrs, RecodeAttrs, RecodeStmts;
    if edges == [] {
      FixedNone();
    } else {
      var e := edges[0];
      AttrsFixed(e.attrs);
      FixedOne(Edge([e.from, e.to], e.attrs));
      EdgesEmitFixed(edges[1..]);
      FixedConcat([Edge([e.from, e.to], e.attrs)], EmitEdges(edges[1..]));
    }
  }

  lemma DeltaAscii(n: NodeDef, current: Attrs)
    requires AsciiAttrs(n.attrs)
    ensures AsciiAttrs(Delta(Inherited(n), current))
  {
    hide IsAscii;
  }

  lemma {:induction false} NodesEmitFixed(nodes: map<string, NodeDef>, remaining: set<string>, current: Attrs)
    requires remaining <= nodes.Keys
    requires forall id | id in nodes :: AsciiAttrs(nodes[id].attrs) && AsciiAttrs(nodes[id].authored)
    ensures Fixed(EmitNodes(nodes, remaining, current))
    decreases remaining
  {
    hide AsciiAttrs, RecodeAttrs, RecodeStmts, NextId, Delta, Inherited, DefaultsBlock;
    if remaining == {} {
      FixedNone();
    } else {
      var id := NextId(nodes, remaining);
      var delta := Delta(Inherited(nodes[id]), current);
      var st := Node(id, nodes[id].authored);
      DeltaAscii(nodes[id], current);
      DefaultsFixed(delta);
      AttrsFixed(nodes[id].authored);
      FixedOne(st);
      FixedConcat(DefaultsBlock(delta), [st]);
      NodesEmitFixed(nodes, remaining - {id}, current + delta);
      FixedConcat(DefaultsBlock(delta) + [st], EmitNodes(nodes, remaining - {id}, current + delta));
    }
  }

  lemma BodyEmitFixed(attrs: Attrs, subs: seq<Statement>, nodes: map<string, NodeDef>,
                      edges: seq<EdgeDef>, nodeDefaults: Attrs, edgeDefaults: Attrs)
    requires AsciiBody(attrs, nodes, edges, nodeDefaults, edgeDefaults) && Fixed(subs)
    ensures Fixed(EmitBody(attrs, subs, nodes, edges, nodeDefaults, edgeDefaults))
  {
    hide AsciiAttrs, Fixed, EmitAttrs, EmitNodes, EmitEdges, DefaultsBlock, EdgeDefaultsBlock;
    var a := EmitAttrs(attrs, Sorted(attrs.Keys));
    var n := EmitNodes(nodes, nodes.Keys, map[]);
    var e := EmitEdges(edges);
    AttrsEmitFixed(attrs, Sorted(attrs.Keys));
    NodesEmitFixed(nodes, nodes.Keys, map[]);
    EdgesEmitFixed(edges);
    DefaultsFixed(nodeDefaults);
    DefaultsFixed(edgeDefaults);
    FixedConcat(a, subs);
    FixedConcat(a + subs, n);
    FixedConcat(a + subs + n, e);
    FixedConcat(a + subs + n + e, DefaultsBlock(nodeDefaults));
    FixedConcat(a + subs + n + e + DefaultsBlock(nodeDefaults), EdgeDefaultsBlock(edgeDefaults));
  }

  lemma {:induction false} SubgraphsEmitFixed(sgs: seq<SubgraphDef>)
    requires forall i | 0 <= i < |sgs| :: AsciiSubgraph(sgs[i])
    ensures Fixed(EmitSubgraphs(sgs))
    decreases |sgs|
  {
    hide AsciiBody, EmitBody, RecodeStmts;
    FixedNone();
    if sgs != [] {
      var sg := sgs[0];
      assert AsciiSubgraph(sg);
      BodyEmitFixed(sg.attrs, [], sg.nodes, sg.edges, sg.nodeDefaults, sg.edgeDefaults);
      FixedOne(EmitSubgraph(sg));
      SubgraphsEmitFixed(sgs[1..]);
      FixedConcat([EmitSubgraph(sg)], EmitSubgraphs(sgs[1..]));
    }
  }

  lemma EmitAscii(g: DotGraph)
    requires AsciiGraph(g)
    ensures RecodeStmts(Emit(g)) == Emit(g)
  {
    hide AsciiBody, EmitBody, EmitSubgraphs, AsciiSubgraph, RecodeStmts;
    SubgraphsEmitFixed(g.subgraphs);
    BodyEmitFixed(g.attrs, EmitSubgraphs(g.subgraphs), g.nodes, g.edges, g.nodeDefaults, g.edgeDefaults);
  }
}
