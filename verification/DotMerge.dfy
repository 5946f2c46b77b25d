/** Merging a statement list into an AST: default scopes, edge chains and
    flattened subgraphs (crates/attractor-dot/src/parser.rs:284-389). */
module DotMerge {
  import opened Wrappers
  import opened DotAst

  /** What `merge_statements` accumulates. */
  datatype Scope = Scope(
    attrs: Attrs, nodes: map<string, NodeDef>, edges: seq<EdgeDef>,
    subgraphs: seq<SubgraphDef>, nodeDefaults: Attrs, edgeDefaults: Attrs)

  function Open(nodeDefaults: Attrs, edgeDefaults: Attrs): Scope {
    Scope(map[], map[], [], [], nodeDefaults, edgeDefaults)
  }

  /** The pairs of a chain, all with the same attributes. */
  function Links(chain: seq<string>, attrs: Attrs): seq<EdgeDef> {
    if |chain| < 2 then []
    else [EdgeDef(chain[0], chain[1], attrs)] + Links(chain[1..], attrs)
  }

  /** The nodes that an edge statement creates when nothing else declares them. */
  function Mentioned(chain: seq<string>, defaults: Attrs): map<string, NodeDef> {
    map id | id in chain :: NodeDef(id, defaults, map[])
  }

  function AsSubgraph(name: Option<string>, sc: Scope): SubgraphDef {
    SubgraphDef(name, sc.attrs, sc.nodes, sc.edges, sc.nodeDefaults, sc.edgeDefaults)
  }

  /** The scope after one statement. */
  function Apply(sc: Scope, st: Statement): Scope
    decreases st, 0
  {
    match st
    case GraphAttrs(attrs) => sc.(attrs := sc.attrs + attrs)
    case NodeDefaults(attrs) => sc.(nodeDefaults := sc.nodeDefaults + attrs)
    case EdgeDefaults(attrs) => sc.(edgeDefaults := sc.edgeDefaults + attrs)
    case Node(id, attrs) =>
      sc.(nodes := sc.nodes[id := NodeDef(id, sc.nodeDefaults + attrs, attrs)])
    case Edge(chain, attrs) =>
      if |chain| < 2 then sc
      else sc.(edges := sc.edges + Links(chain, sc.edgeDefaults + attrs),
               nodes := Mentioned(chain, sc.nodeDefaults) + sc.nodes)
    case Subgraph(name, body) =>
      var inner := MergeFrom(Open(sc.nodeDefaults, sc.edgeDefaults), body);
      sc.(subgraphs := sc.subgraphs + [AsSubgraph(name, inner)] + inner.subgraphs)
    case GraphAttrDecl(key, value) => sc.(attrs := sc.attrs[key := value])
  }

  function MergeFrom(sc: Scope, stmts: seq<Statement>): Scope
    decreases stmts, 1
  {
    if stmts == [] then sc else MergeFrom(Apply(sc, stmts[0]), stmts[1..])
  }

  function Merge(stmts: seq<Statement>): Scope {
    MergeFrom(Open(map[], map[]), stmts)
  }

  function Graph(name: string, sc: Scope): DotGraph {
    DotGraph(name, sc.attrs, sc.nodes, sc.edges, sc.subgraphs, sc.nodeDefaults, sc.edgeDefaults)
  }

  lemma {:induction false} MergeConcat(sc: Scope, a: seq<Statement>, b: seq<Statement>)
    ensures MergeFrom(sc, a + b) == MergeFrom(MergeFrom(sc, a), b)
    decreases |a|
  {
    if a == [] {
      assert a + b == b;
    } else {
      assert (a + b)[1..] == a[1..] + b;
      MergeConcat(Apply(sc, a[0]), a[1..], b);
    }
  }

  /** `merge_statements` as the parser runs it: a loop over the statements
      that updates six collections, recursing into subgraphs. */
  method MergeStatements(stmts: seq<Statement>, parentNodeDefaults: Attrs, parentEdgeDefaults: Attrs)
    returns (sc: Scope)
    ensures sc == MergeFrom(Open(parentNodeDefaults, parentEdgeDefaults), stmts)
    decreases stmts
  {
    var attrs: Attrs, nodes: map<string, NodeDef>, edges: seq<EdgeDef>, subgraphs: seq<SubgraphDef> :=
      map[], map[], [], [];
    var nodeDefaults, edgeDefaults := parentNodeDefaults, parentEdgeDefaults;
    ghost var goal := MergeFrom(Open(parentNodeDefaults, parentEdgeDefaults), stmts);
    assert stmts[0..] == stmts;
    for i := 0 to |stmts|
      invariant MergeFrom(Scope(attrs, nodes, edges, subgraphs, nodeDefaults, edgeDefaults), stmts[i..]) == goal
    {
      assert stmts[i..][1..] == stmts[i + 1..];
      ghost var before := Scope(attrs, nodes, edges, subgraphs, nodeDefaults, edgeDefaults);
      match stmts[i] {
        case GraphAttrs(a) => attrs := attrs + a;
        case NodeDefaults(a) => nodeDefaults := nodeDefaults + a;
        case EdgeDefaults(a) => edgeDefaults := edgeDefaults + a;
        case Node(id, a) => nodes := nodes[id := NodeDef(id, nodeDefaults + a, a)];
        case Edge(chain, a) =>
          nodes, edges := ExpandChain(chain, a, nodes, edges, nodeDefaults, edgeDefaults);
        case Subgraph(name, body) =>
          var inner := MergeStatements(body, nodeDefaults, edgeDefaults);
          subgraphs := subgraphs + [AsSubgraph(name, inner)] + inner.subgraphs;
        case GraphAttrDecl(key, value) => attrs := attrs[key := value];
      }
      assert Scope(attrs, nodes, edges, subgraphs, nodeDefaults, edgeDefaults) == Apply(before, stmts[i]);
    }
    sc := Scope(attrs, nodes, edges, subgraphs, nodeDefaults, edgeDefaults);
  }

  /** Pushes one edge per window of the chain and, for every window, inserts
      each node of the chain that is still missing. */
  method ExpandChain(chain: seq<string>, attrs: Attrs, nodes0: map<string, NodeDef>, edges0: seq<EdgeDef>,
                     nodeDefaults: Attrs, edgeDefaults: Attrs)
    returns (nodes: map<string, NodeDef>, edges: seq<EdgeDef>)
    ensures edges == edges0 + Links(chain, edgeDefaults + attrs)
    ensures nodes == if |chain| < 2 then nodes0 else Mentioned(chain, nodeDefaults) + nodes0
  {
    nodes, edges := nodes0, edges0;
    var i := 0;
    assert chain[0..] == chain;
    while i + 1 < |chain|
      invariant 0 <= i <= |chain| && (0 < i ==> i < |chain|)
      invariant edges + Links(chain[i..], edgeDefaults + attrs) == edges0 + Links(chain, edgeDefaults + attrs)
      invariant nodes == if i == 0 then nodes0 else Mentioned(chain, nodeDefaults) + nodes0
    {
      assert chain[i..][1..] == chain[i + 1..];
      edges := edges + [EdgeDef(chain[i], chain[i + 1], edgeDefaults + attrs)];
      nodes := InsertMissing(chain, nodes, nodeDefaults);
      i := i + 1;
    }
    assert Links(chain[i..], edgeDefaults + attrs) == [];
  }

  lemma MentionNext(ids: seq<string>, id: string, nodes: map<string, NodeDef>, nodeDefaults: Attrs)
    ensures var before := Mentioned(ids, nodeDefaults) + nodes;
      Mentioned(ids + [id], nodeDefaults) + nodes
      == if id in before then before else before[id := NodeDef(id, nodeDefaults, map[])]
  {
  }

  method InsertMissing(chain: seq<string>, nodes0: map<string, NodeDef>, nodeDefaults: Attrs)
    returns (nodes: map<string, NodeDef>)
    ensures nodes == Mentioned(chain, nodeDefaults) + nodes0
  {
    nodes := nodes0;
    for j := 0 to |chain|
      invariant nodes == Mentioned(chain[..j], nodeDefaults) + nodes0
    {
      assert chain[..j + 1] == chain[..j] + [chain[j]];
      MentionNext(chain[..j], chain[j], nodes0, nodeDefaults);
      if chain[j] !in nodes {
        nodes := nodes[chain[j] := NodeDef(chain[j], nodeDefaults, map[])];
      }
    }
    assert chain[..|chain|] == chain;
  }
}
