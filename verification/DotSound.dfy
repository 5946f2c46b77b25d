/** What every parsed graph is made of: identifiers, keys and values that the
    lexer accepts, kept by merging and by printing. */
module DotSound {
  import opened DotAst
  import opened DotLex
  import opened DotGrammar
  import opened DotMerge
  import opened DotEmit
  import opened Order
  import opened DotLexemes
  import opened DotReadBack
  import opened DotRoundTrip
  import opened DotTextRoundTrip

  // ---------------------------------------------------------------------
  // Parsed statements
  // ---------------------------------------------------------------------

  ghost predicate Parseable(st: Statement) {
    match st
    case GraphAttrs(attrs) => LexAttrs(attrs)
    case NodeDefaults(attrs) => LexAttrs(attrs)
    case EdgeDefaults(attrs) => LexAttrs(attrs)
    case Node(id, attrs) => IsIdent(id) && LexAttrs(attrs) && (attrs != map[] ==> !IsKeyword(id))
    case Edge(chain, attrs) => |chain| >= 2 && (forall id | id in chain :: IsIdent(id)) && LexAttrs(attrs)
    case Subgraph(name, body) => (name.Some? ==> IsIdent(name.value)) && forall st | st in body :: Parseable(st)
    case GraphAttrDecl(key, value) => IsIdent(key) && LexValue(value)
  }

  lemma AttrSound(s: string)
    ensures Attr(s).Ok? ==> IsKey(Attr(s).value.0) && LexValue(Attr(s).value.1)
  {
    hide QualifiedId, AttrValue, SkipWs;
    QualifiedSound(s);
    if Attr(s).Ok? {
      AttrValueSound(SkipWs(SkipWs(QualifiedId(s).rest)[1..]));
    }
  }

  lemma {:induction false} AttrsFromSound(acc: Attrs, s: string)
    requires LexAttrs(acc)
    ensures LexAttrs(AttrsFrom(acc, s).0)
    decreases |s|
  {
    hide Attr, SkipSeparator;
    AttrSound(SkipSeparator(s));
    match Attr(SkipSeparator(s))
    case Ok(kv, rest) => AttrsFromSound(acc[kv.0 := kv.1], rest);
    case _ =>
  }

  lemma BlockSound(s: string)
    ensures AttrBlock(s).Ok? ==> LexAttrs(AttrBlock(s).value)
    ensures LexAttrs(OptionalBlock(s).0)
  {
    hide Attr, AttrsFrom, SkipWs;
    if s != "" {
      var body := SkipWs(s[1..]);
      AttrSound(body);
      match Attr(body)
      case Ok(kv, rest) => AttrsFromSound(map[kv.0 := kv.1], rest);
      case _ =>
    }
  }

  lemma KeywordBlockSound(s: string, keyword: string)
    ensures KeywordBlock(s, keyword).Ok? ==> LexAttrs(KeywordBlock(s, keyword).value)
  {
    hide AttrBlock, SkipWs, EndStatement;
    if keyword <= s { BlockSound(SkipWs(s[|keyword|..])); }
  }

  lemma {:induction false} ChainSound(s: string)
    ensures ChainFrom(s).Ok? ==> forall id | id in ChainFrom(s).value :: IsIdent(id)
    decreases |s|
  {
    hide Identifier, SkipWs;
    var s1 := SkipWs(s);
    if "->" <= s1 {
      IdentSound(SkipWs(s1[2..]));
      if Identifier(SkipWs(s1[2..])).Ok? {
        ChainSound(Identifier(SkipWs(s1[2..])).rest);
      }
    }
  }

  lemma EdgeSound(first: string, s: string)
    requires IsIdent(first)
    ensures EdgeRest(first, s).Ok? ==> Parseable(EdgeRest(first, s).value)
  {
    hide Identifier, SkipWs, ChainFrom, OptionalBlock, EndStatement;
    IdentSound(SkipWs(s));
    if Identifier(SkipWs(s)).Ok? {
      var rest := Identifier(SkipWs(s)).rest;
      ChainSound(rest);
      if ChainFrom(rest).Ok? { BlockSound(SkipWs(ChainFrom(rest).rest)); }
    }
  }

  /** A word with a non-empty block would be a keyword block if it were one. */
  lemma KeywordTaken(s: string, id: string, rest: string)
    requires Identifier(s) == Ok(id, rest) && OptionalBlock(SkipWs(rest)).0 != map[]
    ensures KeywordBlock(s, id).Ok?
  {
    hide Identifier, SkipWs, AttrBlock;
    IdentSound(s);
    assert s == id + rest;
    Drop(id, rest);
  }

  lemma NodeOrEdgeSound(s: string)
    requires KeywordBlock(s, "graph").IsFailure() && KeywordBlock(s, "node").IsFailure() && KeywordBlock(s, "edge").IsFailure()
    ensures NodeOrEdge(s).Ok? ==> Parseable(NodeOrEdge(s).value)
  {
    hide Identifier, SkipWs, EdgeRest, OptionalBlock, AttrValue, KeywordBlock;
    IdentSound(s);
    if Identifier(s).Ok? {
      var first, s1 := Identifier(s).value, SkipWs(Identifier(s).rest);
      if "->" <= s1 {
        EdgeSound(first, s1[2..]);
      } else {
        BlockSound(s1);
        var s2 := SkipWs(OptionalBlock(s1).1);
        if OptionalBlock(s1).0 != map[] {
          KeywordTaken(s, first, Identifier(s).rest);
        } else if s2 != "" {
          AttrValueSound(SkipWs(s2[1..]));
        }
      }
    }
  }

  lemma {:induction false} SubgraphSound(s: string)
    ensures SubgraphStmt(s).Ok? ==> Parseable(SubgraphStmt(s).value)
    decreases |s|, 0
  {
    hide Identifier, SkipWs, Statements, EndStatement;
    if "subgraph" <= s {
      IdentSound(SkipWs(s[8..]));
      var s1 := SkipWs(OptionalName(SkipWs(s[8..])).1);
      if s1 != "" { StatementsSound(SkipWs(s1[1..])); }
    }
  }

  lemma {:induction false} OneStatementSound(s: string)
    ensures OneStatement(s).Ok? ==> Parseable(OneStatement(s).value)
    decreases |s|, 1
  {
    hide SkipWs, SubgraphStmt, KeywordBlock, NodeOrEdge;
    var s1 := SkipWs(s);
    KeywordBlockSound(s1, "graph");
    KeywordBlockSound(s1, "node");
    KeywordBlockSound(s1, "edge");
    SubgraphSound(s1);
    if KeywordBlock(s1, "graph").IsFailure() && KeywordBlock(s1, "node").IsFailure() && KeywordBlock(s1, "edge").IsFailure() {
      NodeOrEdgeSound(s1);
    }
  }

  lemma {:induction false} StatementsSound(s: string)
    ensures Statements(s).Ok? ==> forall st | st in Statements(s).value :: Parseable(st)
    decreases |s|, 2
  {
    hide SkipWs, OneStatement, Parseable;
    var s1 := SkipWs(s);
    if s1 != "" && s1[0] != '}' {
      OneStatementSound(s1);
      if OneStatement(s1).Ok? { StatementsSound(OneStatement(s1).rest); }
    }
  }

  // ---------------------------------------------------------------------
  // Merged scopes
  // ---------------------------------------------------------------------

  ghost predicate LexNode(n: NodeDef) {
    IsIdent(n.id) && LexAttrs(n.attrs) && LexAttrs(n.authored) && (n.authored != map[] ==> !IsKeyword(n.id))
  }

  ghost predicate LexEdge(e: EdgeDef) { IsIdent(e.from) && IsIdent(e.to) && LexAttrs(e.attrs) }

  ghost predicate LexBody(attrs: Attrs, nodes: map<string, NodeDef>, edges: seq<EdgeDef>, nodeDefaults: Attrs, edgeDefaults: Attrs) {
    && LexAttrs(attrs) && LexAttrs(nodeDefaults) && LexAttrs(edgeDefaults)
    && (forall id | id in nodes :: LexNode(nodes[id]))
    && (forall e | e in edges :: LexEdge(e))
  }

  ghost predicate LexSubgraph(sg: SubgraphDef) {
    && (sg.name.Some? ==> IsIdent(sg.name.value))
    && LexBody(sg.attrs, sg.nodes, sg.edges, sg.nodeDefaults, sg.edgeDefaults)
  }

  ghost predicate LexScope(sc: Scope) {
    && LexBody(sc.attrs, sc.nodes, sc.edges, sc.nodeDefaults, sc.edgeDefaults)
    && forall sg | sg in sc.subgraphs :: LexSubgraph(sg)
  }

  lemma MergedAttrsLex(a: Attrs, b: Attrs)
    requires LexAttrs(a) && LexAttrs(b)
    ensures LexAttrs(a + b)
  {
    hide IsKey, LexValue;
  }

  lemma {:induction false} LinksLex(chain: seq<string>, attrs: Attrs)
    requires (forall id | id in chain :: IsIdent(id)) && LexAttrs(attrs)
    ensures forall e | e in Links(chain, attrs) :: LexEdge(e)
    decreases |chain|
  {
    hide IsIdent, LexAttrs;
    if |chain| >= 2 { LinksLex(chain[1..], attrs); }
  }

  lemma {:induction false} ApplyLex(sc: Scope, st: Statement)
    requires LexScope(sc) && Parseable(st)
    ensures LexScope(Apply(sc, st))
    decreases st, 0
  {
    hide IsIdent, LexAttrs, IsKey, LexValue, MergeFrom;
    match st
    case GraphAttrs(attrs) => MergedAttrsLex(sc.attrs, attrs);
    case NodeDefaults(attrs) => MergedAttrsLex(sc.nodeDefaults, attrs);
    case EdgeDefaults(attrs) => MergedAttrsLex(sc.edgeDefaults, attrs);
    case Node(id, attrs) => MergedAttrsLex(sc.nodeDefaults, attrs);
    case Edge(chain, attrs) =>
      EmptyLex();
      MergedAttrsLex(sc.edgeDefaults, attrs);
      LinksLex(chain, sc.edgeDefaults + attrs);
    case Subgraph(name, body) =>
      EmptyLex();
      MergeFromLex(Open(sc.nodeDefaults, sc.edgeDefaults), body);
    case GraphAttrDecl(key, value) =>
      SingleLex(key, value);
      MergedAttrsLex(sc.attrs, map[key := value]);
      assert sc.attrs[key := value] == sc.attrs + map[key := value];
  }

  lemma EmptyLex()
    ensures LexAttrs(map[])
  {
  }

  lemma SingleLex(key: string, value: Value)
    requires IsIdent(key) && LexValue(value)
    ensures LexAttrs(map[key := value])
  {
    IdentIsKey(key);
  }

  lemma {:induction false} MergeFromLex(sc: Scope, stmts: seq<Statement>)
    requires LexScope(sc) && forall st | st in stmts :: Parseable(st)
    ensures LexScope(MergeFrom(sc, stmts))
    decreases stmts, 1
  {
    hide LexScope, Parseable, Apply;
    if stmts != [] {
      ApplyLex(sc, stmts[0]);
      MergeFromLex(Apply(sc, stmts[0]), stmts[1..]);
    }
  }

  // ---------------------------------------------------------------------
  // Printed statements, and when they can be read
  // ---------------------------------------------------------------------

  predicate Dotless(attrs: Attrs) { forall k | k in attrs :: '.' !in k }

  /** One scope can be read back: its own keys have no dot, all durations fit. */
  predicate InDomain(attrs: Attrs, nodes: map<string, NodeDef>, edges: seq<EdgeDef>, nodeDefaults: Attrs, edgeDefaults: Attrs) {
    && Dotless(attrs) && FitsAll(attrs)
    && (forall id | id in nodes :: FitsAll(nodes[id].attrs))
    && (forall e | e in edges :: FitsAll(e.attrs))
    && FitsAll(nodeDefaults) && FitsAll(edgeDefaults)
  }

  predicate SubgraphInDomain(sg: SubgraphDef) {
    InDomain(sg.attrs, sg.nodes, sg.edges, sg.nodeDefaults, sg.edgeDefaults)
  }

  predicate GraphInDomain(g: DotGraph) {
    && InDomain(g.attrs, g.nodes, g.edges, g.nodeDefaults, g.edgeDefaults)
    && forall sg | sg in g.subgraphs :: SubgraphInDomain(sg)
  }

  lemma DotlessIsIdent(k: string)
    requires IsKey(k)
    ensures IsIdent(k) <==> '.' !in k
  {
    hide IdentLen, QualifiedLen;
    KeySplit(k);
    if IsIdent(k) {
      forall i | 0 <= i < |k| ensures k[i] != '.' {}
    }
  }

  /** Both facts about one printed list, as one predicate. */
  ghost predicate PrintedIff(stmts: seq<Statement>, readable: bool) {
    AllPrinted(stmts) && (AllReadable(stmts) <==> readable)
  }

  lemma PrintedConcat(a: seq<Statement>, b: seq<Statement>, ra: bool, rb: bool)
    requires PrintedIff(a, ra) && PrintedIff(b, rb)
    ensures PrintedIff(a + b, ra && rb)
  {
    hide Printed, Readable;
    assert forall st :: st in a + b <==> st in a || st in b;
  }

  lemma PrintedOne(st: Statement)
    requires Printed(st)
    ensures PrintedIff([st], Readable(st))
  {
    hide Printed, Readable;
    assert forall x | x in [st] :: x == st;
  }

  lemma PrintedNone()
    ensures PrintedIff([], true)
  {
  }

  predicate DeclsFit(attrs: Attrs, keys: seq<string>)
    requires forall k | k in keys :: k in attrs
  {
    forall k | k in keys :: '.' !in k && Fits(attrs[k])
  }

  lemma {:induction false} EmitAttrsPrinted(attrs: Attrs, keys: seq<string>)
    requires LexAttrs(attrs) && forall k | k in keys :: k in attrs
    ensures PrintedIff(EmitAttrs(attrs, keys), DeclsFit(attrs, keys))
    decreases |keys|
  {
    hide IsKey, LexValue, Fits, IsIdent;
    if keys == [] {
      PrintedNone();
    } else {
      var k := keys[0];
      DotlessIsIdent(k);
      PrintedOne(GraphAttrDecl(k, attrs[k]));
      EmitAttrsPrinted(attrs, keys[1..]);
      PrintedConcat([GraphAttrDecl(k, attrs[k])], EmitAttrs(attrs, keys[1..]), '.' !in k && Fits(attrs[k]), DeclsFit(attrs, keys[1..]));
      assert DeclsFit(attrs, keys) <==> ('.' !in k && Fits(attrs[k]) && DeclsFit(attrs, keys[1..])) by {
        assert forall x :: x in keys <==> x == k || x in keys[1..];
      }
    }
  }

  lemma DeclsSorted(attrs: Attrs)
    ensures DeclsFit(attrs, Sorted(attrs.Keys)) <==> Dotless(attrs) && FitsAll(attrs)
  {
    hide Fits;
    assert forall k :: k in Sorted(attrs.Keys) <==> k in attrs;
  }

  lemma DefaultsPrinted(attrs: Attrs)
    requires LexAttrs(attrs)
    ensures PrintedIff(DefaultsBlock(attrs), FitsAll(attrs)) && PrintedIff(EdgeDefaultsBlock(attrs), FitsAll(attrs))
  {
    hide LexAttrs;
    if attrs == map[] {
      PrintedNone();
    } else {
      PrintedOne(NodeDefaults(attrs));
      PrintedOne(EdgeDefaults(attrs));
    }
  }

  lemma {:induction false} EmitEdgesPrinted(edges: seq<EdgeDef>)
    requires forall e | e in edges :: LexEdge(e)
    ensures PrintedIff(EmitEdges(edges), forall e | e in edges :: FitsAll(e.attrs))
    decreases |edges|
  {
    hide LexAttrs, FitsAll, IsIdent;
    if edges == [] {
      PrintedNone();
    } else {
      var e := edges[0];
      var st := Edge([e.from, e.to], e.attrs);
      assert e in edges && LexEdge(e);
      PrintedOne(st);
      EmitEdgesPrinted(edges[1..]);
      PrintedConcat([st], EmitEdges(edges[1..]), FitsAll(e.attrs), forall e | e in edges[1..] :: FitsAll(e.attrs));
      assert forall x :: x in edges <==> x == e || x in edges[1..];
    }
  }

  /** The values of a node are its authored and its inherited ones. */
  lemma NodeFits(n: NodeDef, current: Attrs)
    requires WellFormed(n, n.id) && FitsAll(current)
    ensures FitsAll(n.attrs) <==> FitsAll(n.authored) && FitsAll(Delta(Inherited(n), current))
    ensures FitsAll(Delta(Inherited(n), current)) ==> FitsAll(current + Delta(Inherited(n), current))
  {
    hide Fits;
    var delta := Delta(Inherited(n), current);
    if FitsAll(n.authored) && FitsAll(delta) {
      forall k | k in n.attrs ensures Fits(n.attrs[k]) {
        if k in n.authored {
        } else if k in delta {
        } else {
          assert k in Inherited(n) && k in current && current[k] == n.attrs[k];
        }
      }
    }
  }

  lemma DeltaLex(n: NodeDef, current: Attrs)
    requires LexAttrs(n.attrs)
    ensures LexAttrs(Delta(Inherited(n), current))
  {
    hide IsKey, LexValue;
  }

  lemma {:induction false} EmitNodesPrinted(nodes: map<string, NodeDef>, remaining: set<string>, current: Attrs)
    requires remaining <= nodes.Keys && FitsAll(current)
    requires forall id | id in remaining :: LexNode(nodes[id]) && WellFormed(nodes[id], id)
    ensures AllPrinted(EmitNodes(nodes, remaining, current))
    ensures AllReadable(EmitNodes(nodes, remaining, current)) <==> forall id | id in remaining :: FitsAll(nodes[id].attrs)
    decreases remaining
  {
    hide LexAttrs, FitsAll, IsIdent, NextId, Delta, Inherited, IsKeyword;
    if remaining != {} {
      var id := NextId(nodes, remaining);
      var n := nodes[id];
      var delta := Delta(Inherited(n), current);
      var st := Node(id, n.authored);
      var rest := EmitNodes(nodes, remaining - {id}, current + delta);
      NodeFits(n, current);
      DeltaLex(n, current);
      DefaultsPrinted(delta);
      PrintedOne(st);
      PrintedConcat(DefaultsBlock(delta), [st], FitsAll(delta), FitsAll(n.authored));
      assert AllReadable(DefaultsBlock(delta) + [st]) <==> FitsAll(n.attrs);
      NodesStep(nodes, remaining, id);
      if FitsAll(n.attrs) {
        EmitNodesPrinted(nodes, remaining - {id}, current + delta);
        PrintedConcat(DefaultsBlock(delta) + [st], rest, true, AllReadable(rest));
      } else {
        EmitNodesLex(nodes, remaining - {id}, current + delta);
        PrintedConcat(DefaultsBlock(delta) + [st], rest, false, AllReadable(rest));
      }
    }
  }

  lemma NodesStep(nodes: map<string, NodeDef>, remaining: set<string>, id: string)
    requires remaining <= nodes.Keys && id in remaining
    ensures (forall x | x in remaining :: FitsAll(nodes[x].attrs))
      <==> (FitsAll(nodes[id].attrs) && forall x | x in remaining - {id} :: FitsAll(nodes[x].attrs))
  {
    hide FitsAll;
  }

  lemma {:induction false} EmitNodesLex(nodes: map<string, NodeDef>, remaining: set<string>, current: Attrs)
    requires remaining <= nodes.Keys
    requires forall id | id in remaining :: LexNode(nodes[id]) && WellFormed(nodes[id], id)
    ensures AllPrinted(EmitNodes(nodes, remaining, current))
    decreases remaining
  {
    hide LexAttrs, FitsAll, IsIdent, NextId, Delta, Inherited, IsKeyword;
    if remaining != {} {
      var id := NextId(nodes, remaining);
      var delta := Delta(Inherited(nodes[id]), current);
      var st := Node(id, nodes[id].authored);
      var rest := EmitNodes(nodes, remaining - {id}, current + delta);
      DeltaLex(nodes[id], current);
      DefaultsPrinted(delta);
      PrintedOne(st);
      PrintedConcat(DefaultsBlock(delta), [st], AllReadable(DefaultsBlock(delta)), AllReadable([st]));
      EmitNodesLex(nodes, remaining - {id}, current + delta);
      PrintedConcat(DefaultsBlock(delta) + [st], rest, AllReadable(DefaultsBlock(delta) + [st]), AllReadable(rest));
    }
  }

  lemma BodyPrinted(attrs: Attrs, subs: seq<Statement>, readable: bool, nodes: map<string, NodeDef>,
                    edges: seq<EdgeDef>, nodeDefaults: Attrs, edgeDefaults: Attrs)
    requires LexBody(attrs, nodes, edges, nodeDefaults, edgeDefaults) && WellFormedNodes(nodes, nodes.Keys)
    requires PrintedIff(subs, readable)
    ensures PrintedIff(EmitBody(attrs, subs, nodes, edges, nodeDefaults, edgeDefaults),
                       readable && InDomain(attrs, nodes, edges, nodeDefaults, edgeDefaults))
  {
    hide LexAttrs, FitsAll, EmitAttrs, EmitNodes, EmitEdges, DefaultsBlock, EdgeDefaultsBlock, Dotless, WellFormed,
      LexNode, LexEdge, PrintedIff, DeclsFit;
    var a := EmitAttrs(attrs, Sorted(attrs.Keys));
    var n := EmitNodes(nodes, nodes.Keys, map[]);
    var e := EmitEdges(edges);
    var nd, ed := DefaultsBlock(nodeDefaults), EdgeDefaultsBlock(edgeDefaults);
    var fn := forall id | id in nodes :: FitsAll(nodes[id].attrs);
    var fe := forall e | e in edges :: FitsAll(e.attrs);
    EmitAttrsPrinted(attrs, Sorted(attrs.Keys));
    DeclsSorted(attrs);
    NodesPrintedIff(nodes, fn);
    EmitEdgesPrinted(edges);
    DefaultsPrinted(nodeDefaults);
    DefaultsPrinted(edgeDefaults);
    var ra := DeclsFit(attrs, Sorted(attrs.Keys));
    PrintedConcat(a, subs, ra, readable);
    PrintedConcat(a + subs, n, ra && readable, fn);
    PrintedConcat(a + subs + n, e, ra && readable && fn, fe);
    PrintedConcat(a + subs + n + e, nd, ra && readable && fn && fe, FitsAll(nodeDefaults));
    PrintedConcat(a + subs + n + e + nd, ed, ra && readable && fn && fe && FitsAll(nodeDefaults), FitsAll(edgeDefaults));
  }

  lemma NodesPrintedIff(nodes: map<string, NodeDef>, fits: bool)
    requires (forall id | id in nodes :: LexNode(nodes[id])) && WellFormedNodes(nodes, nodes.Keys)
    requires fits <==> forall id | id in nodes :: FitsAll(nodes[id].attrs)
    ensures PrintedIff(EmitNodes(nodes, nodes.Keys, map[]), fits)
  {
    hide LexNode, EmitNodes, WellFormed;
    assert FitsAll(map[]);
    EmitNodesPrinted(nodes, nodes.Keys, map[]);
  }

  lemma SubgraphPrinted(sg: SubgraphDef)
    requires LexSubgraph(sg) && WellFormedNodes(sg.nodes, sg.nodes.Keys)
    ensures Printed(EmitSubgraph(sg)) && (Readable(EmitSubgraph(sg)) <==> SubgraphInDomain(sg))
  {
    hide LexBody, InDomain, EmitBody, WellFormedNodes;
    PrintedNone();
    BodyPrinted(sg.attrs, [], true, sg.nodes, sg.edges, sg.nodeDefaults, sg.edgeDefaults);
  }

  lemma {:induction false} SubgraphsPrinted(sgs: seq<SubgraphDef>)
    requires forall sg | sg in sgs :: LexSubgraph(sg) && WellFormedNodes(sg.nodes, sg.nodes.Keys)
    ensures PrintedIff(EmitSubgraphs(sgs), forall sg | sg in sgs :: SubgraphInDomain(sg))
    decreases |sgs|
  {
    hide LexSubgraph, SubgraphInDomain, EmitSubgraph, WellFormedNodes, PrintedIff;
    if sgs == [] {
      PrintedNone();
    } else {
      SubgraphPrinted(sgs[0]);
      PrintedOne(EmitSubgraph(sgs[0]));
      SubgraphsPrinted(sgs[1..]);
      PrintedConcat([EmitSubgraph(sgs[0])], EmitSubgraphs(sgs[1..]), SubgraphInDomain(sgs[0]),
                    forall sg | sg in sgs[1..] :: SubgraphInDomain(sg));
      assert forall x :: x in sgs <==> x == sgs[0] || x in sgs[1..];
    }
  }

  ghost predicate LexGraph(g: DotGraph) {
    && IsIdent(g.name) && LexBody(g.attrs, g.nodes, g.edges, g.nodeDefaults, g.edgeDefaults)
    && forall sg | sg in g.subgraphs :: LexSubgraph(sg)
  }

  /** What is printed for a lexically sound graph, and when it can be read. */
  lemma GraphPrinted(g: DotGraph)
    requires LexGraph(g) && Serializable(g)
    ensures AllPrinted(Emit(g)) && (AllReadable(Emit(g)) <==> GraphInDomain(g))
  {
    hide LexBody, InDomain, EmitBody, LexSubgraph, SubgraphInDomain, WellFormedNodes, Orderable, InheritsFrom, EdgesInside,
      EmitSubgraphs;
    forall sg | sg in g.subgraphs ensures WellFormedNodes(sg.nodes, sg.nodes.Keys) {
      var i :| 0 <= i < |g.subgraphs| && g.subgraphs[i] == sg;
      assert SerializableSubgraph(g.subgraphs[i]);
    }
    SubgraphsPrinted(g.subgraphs);
    BodyPrinted(g.attrs, EmitSubgraphs(g.subgraphs), forall sg | sg in g.subgraphs :: SubgraphInDomain(sg),
                g.nodes, g.edges, g.nodeDefaults, g.edgeDefaults);
  }
}
