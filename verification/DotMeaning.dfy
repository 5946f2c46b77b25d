/** What a statement list means, key by key and without merging anything
    (crates/attractor-dot/src/parser.rs:294-389): which statement gives a
    graph, node or edge attribute its value, and what a subgraph inherits. */
module DotMeaning {
  import opened Wrappers
  import opened DotAst
  import opened DotMerge

  function Get(attrs: Attrs, k: string): Option<Value> { if k in attrs then Some(attrs[k]) else None }

  // ---------------------------------------------------------------------
  // Values, read off the statements
  // ---------------------------------------------------------------------

  /** The graph attribute written last. */
  function GraphAttrAt(stmts: seq<Statement>, k: string): Option<Value>
    decreases |stmts|
  {
    if stmts == [] then None
    else match stmts[|stmts| - 1]
      case GraphAttrs(a) => if k in a then Some(a[k]) else GraphAttrAt(stmts[..|stmts| - 1], k)
      case GraphAttrDecl(key, v) => if key == k then Some(v) else GraphAttrAt(stmts[..|stmts| - 1], k)
      case _ => GraphAttrAt(stmts[..|stmts| - 1], k)
  }

  /** The node default in force behind these statements of a scope that opens
      with the given ones. */
  function NodeDefaultAt(stmts: seq<Statement>, opening: Attrs, k: string): Option<Value>
    decreases |stmts|
  {
    if stmts == [] then Get(opening, k)
    else match stmts[|stmts| - 1]
      case NodeDefaults(a) => if k in a then Some(a[k]) else NodeDefaultAt(stmts[..|stmts| - 1], opening, k)
      case _ => NodeDefaultAt(stmts[..|stmts| - 1], opening, k)
  }

  function EdgeDefaultAt(stmts: seq<Statement>, opening: Attrs, k: string): Option<Value>
    decreases |stmts|
  {
    if stmts == [] then Get(opening, k)
    else match stmts[|stmts| - 1]
      case EdgeDefaults(a) => if k in a then Some(a[k]) else EdgeDefaultAt(stmts[..|stmts| - 1], opening, k)
      case _ => EdgeDefaultAt(stmts[..|stmts| - 1], opening, k)
  }

  /** An edge statement that yields an edge and speaks of a node. */
  predicate Mentions(st: Statement, id: string) { st.Edge? && |st.chain| >= 2 && id in st.chain }

  predicate Declares(st: Statement, id: string) { st.Node? && st.id == id }

  predicate HasNode(stmts: seq<Statement>, id: string) {
    exists i :: 0 <= i < |stmts| && (Declares(stmts[i], id) || Mentions(stmts[i], id))
  }

  /** A node's effective attribute: from its last declaration, where its own
      attributes come before the defaults in force there; undeclared, from the
      defaults in force at its first mention. */
  ghost function NodeAttrAt(stmts: seq<Statement>, opening: Attrs, id: string, k: string): Option<Value>
    decreases |stmts|
  {
    if stmts == [] then None
    else
      var before, last := stmts[..|stmts| - 1], stmts[|stmts| - 1];
      if Declares(last, id) then if k in last.attrs then Some(last.attrs[k]) else NodeDefaultAt(before, opening, k)
      else if Mentions(last, id) && !HasNode(before, id) then NodeDefaultAt(before, opening, k)
      else NodeAttrAt(before, opening, id, k)
  }

  /** What a node's last declaration writes on it. */
  function AuthoredAt(stmts: seq<Statement>, id: string, k: string): Option<Value>
    decreases |stmts|
  {
    if stmts == [] then None
    else if Declares(stmts[|stmts| - 1], id) then Get(stmts[|stmts| - 1].attrs, k)
    else AuthoredAt(stmts[..|stmts| - 1], id, k)
  }

  /** Where the edges come from: statement and place in its chain, in order. */
  datatype Place = Place(stmt: nat, at: nat)

  function Places(stmts: seq<Statement>): seq<Place>
    decreases |stmts|
  {
    if stmts == [] then []
    else
      var n := |stmts| - 1;
      Places(stmts[..n])
      + if stmts[n].Edge? && |stmts[n].chain| >= 2 then seq(|stmts[n].chain| - 1, j requires 0 <= j => Place(n, j)) else []
  }

  /** The value of an edge's attribute: its statement's own, else the default
      in force there. */
  function EdgeAttrAt(stmts: seq<Statement>, opening: Attrs, i: nat, k: string): Option<Value>
    requires i < |stmts| && stmts[i].Edge?
  {
    if k in stmts[i].attrs then Some(stmts[i].attrs[k]) else EdgeDefaultAt(stmts[..i], opening, k)
  }

  // ---------------------------------------------------------------------
  // What a scope has to be
  // ---------------------------------------------------------------------

  ghost predicate NodesMean(nodes: map<string, NodeDef>, stmts: seq<Statement>, opening: Attrs) {
    && (forall id :: id in nodes <==> HasNode(stmts, id))
    && forall id | id in nodes :: NodeMeans(nodes[id], stmts, opening, id)
  }

  ghost predicate NodeMeans(n: NodeDef, stmts: seq<Statement>, opening: Attrs, id: string) {
    && n.id == id
    && (forall k :: Get(n.attrs, k) == NodeAttrAt(stmts, opening, id, k))
    && forall k :: Get(n.authored, k) == AuthoredAt(stmts, id, k)
  }

  ghost predicate EdgesMean(edges: seq<EdgeDef>, stmts: seq<Statement>, opening: Attrs) {
    && |edges| == |Places(stmts)|
    && forall i | 0 <= i < |edges| :: EdgeMeans(edges[i], stmts, opening, Places(stmts)[i])
  }

  ghost predicate EdgeMeans(e: EdgeDef, stmts: seq<Statement>, opening: Attrs, p: Place) {
    && p.stmt < |stmts| && stmts[p.stmt].Edge? && p.at + 1 < |stmts[p.stmt].chain|
    && e.from == stmts[p.stmt].chain[p.at] && e.to == stmts[p.stmt].chain[p.at + 1]
    && forall k :: Get(e.attrs, k) == EdgeAttrAt(stmts, opening, p.stmt, k)
  }

  ghost predicate AttrsMean(attrs: Attrs, nodeDefaults: Attrs, edgeDefaults: Attrs, stmts: seq<Statement>, nd: Attrs, ed: Attrs) {
    && (forall k :: Get(attrs, k) == GraphAttrAt(stmts, k))
    && (forall k :: Get(nodeDefaults, k) == NodeDefaultAt(stmts, nd, k))
    && forall k :: Get(edgeDefaults, k) == EdgeDefaultAt(stmts, ed, k)
  }

  /** The scope of a statement list that opens with defaults `nd` and `ed`. */
  ghost predicate ScopeMeans(sc: Scope, stmts: seq<Statement>, nd: Attrs, ed: Attrs)
    decreases stmts, 1
  {
    && AttrsMean(sc.attrs, sc.nodeDefaults, sc.edgeDefaults, stmts, nd, ed)
    && NodesMean(sc.nodes, stmts, nd) && EdgesMean(sc.edges, stmts, ed)
    && SubgraphsMean(sc.subgraphs, stmts, nd, ed)
  }

  /** Each subgraph is a scope of its own that opens with the defaults in force
      where it stands, and has the parent's attributes, nodes and edges not;
      those nested in it follow it in one flat list. */
  ghost predicate SubgraphsMean(subgraphs: seq<SubgraphDef>, stmts: seq<Statement>, nd: Attrs, ed: Attrs)
    decreases stmts, 0
  {
    if stmts == [] then subgraphs == []
    else
      var before, last := stmts[..|stmts| - 1], stmts[|stmts| - 1];
      if last.Subgraph? then
        exists earlier, inner, nd', ed' ::
          && Follows(subgraphs, earlier, last.name, inner)
          && SubgraphsMean(earlier, before, nd, ed)
          && InForce(before, nd, ed, nd', ed')
          && ScopeMeans(inner, last.body, nd', ed')
      else SubgraphsMean(subgraphs, before, nd, ed)
  }

  ghost predicate Follows(subgraphs: seq<SubgraphDef>, earlier: seq<SubgraphDef>, name: Option<string>, inner: Scope) {
    subgraphs == earlier
                 + [SubgraphDef(name, inner.attrs, inner.nodes, inner.edges, inner.nodeDefaults, inner.edgeDefaults)]
                 + inner.subgraphs
  }

  /** `nd'` and `ed'` are the defaults in force behind `stmts`. */
  ghost predicate InForce(stmts: seq<Statement>, nd: Attrs, ed: Attrs, nd': Attrs, ed': Attrs) {
    && (forall k :: Get(nd', k) == NodeDefaultAt(stmts, nd, k))
    && forall k :: Get(ed', k) == EdgeDefaultAt(stmts, ed, k)
  }

  // ---------------------------------------------------------------------
  // Merging gives that scope
  // ---------------------------------------------------------------------

  lemma MergeSnoc(sc: Scope, stmts: seq<Statement>)
    requires stmts != []
    ensures MergeFrom(sc, stmts) == Apply(MergeFrom(sc, stmts[..|stmts| - 1]), stmts[|stmts| - 1])
  {
    hide Apply;
    var before, last := stmts[..|stmts| - 1], stmts[|stmts| - 1];
    assert stmts == before + [last];
    MergeConcat(sc, before, [last]);
    assert [last][1..] == [];
    var sc1 := MergeFrom(sc, before);
    assert MergeFrom(sc1, [last]) == MergeFrom(Apply(sc1, last), []);
  }

  lemma AttrsStep(sc: Scope, stmts: seq<Statement>, nd: Attrs, ed: Attrs)
    requires stmts != []
    requires AttrsMean(sc.attrs, sc.nodeDefaults, sc.edgeDefaults, stmts[..|stmts| - 1], nd, ed)
    ensures var after := Apply(sc, stmts[|stmts| - 1]);
      AttrsMean(after.attrs, after.nodeDefaults, after.edgeDefaults, stmts, nd, ed)
  {
    hide Apply, GraphAttrAt, NodeDefaultAt, EdgeDefaultAt, Get;
    var before, last := stmts[..|stmts| - 1], stmts[|stmts| - 1];
    var after := Apply(sc, last);
    forall k ensures Get(after.attrs, k) == GraphAttrAt(stmts, k) {
      assert Get(sc.attrs, k) == GraphAttrAt(before, k);
      GraphAttrStep(sc, stmts, k);
    }
    forall k ensures Get(after.nodeDefaults, k) == NodeDefaultAt(stmts, nd, k) {
      assert Get(sc.nodeDefaults, k) == NodeDefaultAt(before, nd, k);
      NodeDefaultStep(sc, stmts, nd, k);
    }
    forall k ensures Get(after.edgeDefaults, k) == EdgeDefaultAt(stmts, ed, k) {
      assert Get(sc.edgeDefaults, k) == EdgeDefaultAt(before, ed, k);
      EdgeDefaultStep(sc, stmts, ed, k);
    }
  }

  lemma GraphAttrStep(sc: Scope, stmts: seq<Statement>, k: string)
    requires stmts != [] && Get(sc.attrs, k) == GraphAttrAt(stmts[..|stmts| - 1], k)
    ensures Get(Apply(sc, stmts[|stmts| - 1]).attrs, k) == GraphAttrAt(stmts, k)
  {
    hide MergeFrom, Links, Mentioned;
    match stmts[|stmts| - 1] { case GraphAttrs(a) => case GraphAttrDecl(key, v) => case _ => }
  }

  lemma NodeDefaultStep(sc: Scope, stmts: seq<Statement>, nd: Attrs, k: string)
    requires stmts != [] && Get(sc.nodeDefaults, k) == NodeDefaultAt(stmts[..|stmts| - 1], nd, k)
    ensures Get(Apply(sc, stmts[|stmts| - 1]).nodeDefaults, k) == NodeDefaultAt(stmts, nd, k)
  {
    hide MergeFrom, Links, Mentioned;
    match stmts[|stmts| - 1] { case NodeDefaults(a) => case _ => }
  }

  lemma EdgeDefaultStep(sc: Scope, stmts: seq<Statement>, ed: Attrs, k: string)
    requires stmts != [] && Get(sc.edgeDefaults, k) == EdgeDefaultAt(stmts[..|stmts| - 1], ed, k)
    ensures Get(Apply(sc, stmts[|stmts| - 1]).edgeDefaults, k) == EdgeDefaultAt(stmts, ed, k)
  {
    hide MergeFrom, Links, Mentioned;
    match stmts[|stmts| - 1] { case EdgeDefaults(a) => case _ => }
  }

  lemma NodesStep(sc: Scope, stmts: seq<Statement>, nd: Attrs)
    requires stmts != [] && NodesMean(sc.nodes, stmts[..|stmts| - 1], nd)
    requires forall k :: Get(sc.nodeDefaults, k) == NodeDefaultAt(stmts[..|stmts| - 1], nd, k)
    ensures NodesMean(Apply(sc, stmts[|stmts| - 1]).nodes, stmts, nd)
  {
    hide MergeFrom, Links, NodeDefaultAt, Apply, NodeMeans, HasNode, Declares, Mentions;
    var nodes := Apply(sc, stmts[|stmts| - 1]).nodes;
    HasNodeSnoc(stmts);
    NodeNames(sc, stmts[|stmts| - 1]);
    forall id | id in nodes ensures NodeMeans(nodes[id], stmts, nd, id) {
      NodeStep(sc, stmts, nd, id);
    }
  }

  lemma NodeNames(sc: Scope, st: Statement)
    ensures forall id :: id in Apply(sc, st).nodes <==> id in sc.nodes || Declares(st, id) || Mentions(st, id)
  {
    hide MergeFrom, Links;
  }

  lemma HasNodeSnoc(stmts: seq<Statement>)
    requires stmts != []
    ensures var before, last := stmts[..|stmts| - 1], stmts[|stmts| - 1];
      forall id :: HasNode(stmts, id) <==> HasNode(before, id) || Declares(last, id) || Mentions(last, id)
  {
    var before, last := stmts[..|stmts| - 1], stmts[|stmts| - 1];
    forall id ensures HasNode(stmts, id) <==> HasNode(before, id) || Declares(last, id) || Mentions(last, id) {
      if HasNode(before, id) {
        var i :| 0 <= i < |before| && (Declares(before[i], id) || Mentions(before[i], id));
        assert stmts[i] == before[i];
      }
      if HasNode(stmts, id) && !Declares(last, id) && !Mentions(last, id) {
        var i :| 0 <= i < |stmts| && (Declares(stmts[i], id) || Mentions(stmts[i], id));
        assert before[i] == stmts[i];
      }
    }
  }

  lemma NodeStep(sc: Scope, stmts: seq<Statement>, nd: Attrs, id: string)
    requires stmts != [] && NodesMean(sc.nodes, stmts[..|stmts| - 1], nd)
    requires forall k :: Get(sc.nodeDefaults, k) == NodeDefaultAt(stmts[..|stmts| - 1], nd, k)
    requires id in Apply(sc, stmts[|stmts| - 1]).nodes
    ensures NodeMeans(Apply(sc, stmts[|stmts| - 1]).nodes[id], stmts, nd, id)
  {
    hide MergeFrom, Links, NodeDefaultAt, HasNode, NodeMeans;
    var before, last := stmts[..|stmts| - 1], stmts[|stmts| - 1];
    if Declares(last, id) {
      DeclaredNode(stmts, nd, id, sc.nodeDefaults);
    } else if id in sc.nodes {
      KeptNode(sc.nodes[id], stmts, nd, id);
    } else {
      MentionedNode(stmts, nd, id, sc.nodeDefaults);
    }
  }

  lemma DeclaredNode(stmts: seq<Statement>, nd: Attrs, id: string, defaults: Attrs)
    requires stmts != [] && Declares(stmts[|stmts| - 1], id)
    requires forall k :: Get(defaults, k) == NodeDefaultAt(stmts[..|stmts| - 1], nd, k)
    ensures NodeMeans(NodeDef(id, defaults + stmts[|stmts| - 1].attrs, stmts[|stmts| - 1].attrs), stmts, nd, id)
  {
    hide NodeDefaultAt, HasNode;
    var own := stmts[|stmts| - 1].attrs;
    forall k ensures Get(defaults + own, k) == NodeAttrAt(stmts, nd, id, k) {
      assert Get(defaults, k) == NodeDefaultAt(stmts[..|stmts| - 1], nd, k);
    }
  }

  lemma KeptNode(n: NodeDef, stmts: seq<Statement>, nd: Attrs, id: string)
    requires stmts != [] && !Declares(stmts[|stmts| - 1], id) && HasNode(stmts[..|stmts| - 1], id)
    requires NodeMeans(n, stmts[..|stmts| - 1], nd, id)
    ensures NodeMeans(n, stmts, nd, id)
  {
    hide NodeDefaultAt, HasNode;
    var before := stmts[..|stmts| - 1];
    forall k ensures Get(n.attrs, k) == NodeAttrAt(stmts, nd, id, k) {
      assert Get(n.attrs, k) == NodeAttrAt(before, nd, id, k);
    }
    forall k ensures Get(n.authored, k) == AuthoredAt(stmts, id, k) {
      assert Get(n.authored, k) == AuthoredAt(before, id, k);
    }
  }

  lemma MentionedNode(stmts: seq<Statement>, nd: Attrs, id: string, defaults: Attrs)
    requires stmts != [] && Mentions(stmts[|stmts| - 1], id) && !HasNode(stmts[..|stmts| - 1], id)
    requires forall k :: Get(defaults, k) == NodeDefaultAt(stmts[..|stmts| - 1], nd, k)
    ensures NodeMeans(NodeDef(id, defaults, map[]), stmts, nd, id)
  {
    hide NodeDefaultAt, HasNode;
    var before := stmts[..|stmts| - 1];
    AuthoredNone(before, id);
    forall k ensures Get(defaults, k) == NodeAttrAt(stmts, nd, id, k) {
      assert Get(defaults, k) == NodeDefaultAt(before, nd, k);
    }
    forall k ensures Get(map[], k) == AuthoredAt(stmts, id, k) {
      assert AuthoredAt(before, id, k) == None;
    }
  }

  /** Nothing is authored on a node that does not exist yet. */
  lemma {:induction false} AuthoredNone(stmts: seq<Statement>, id: string)
    requires !HasNode(stmts, id)
    ensures forall k :: AuthoredAt(stmts, id, k) == None
    decreases |stmts|
  {
    hide HasNode;
    if stmts != [] {
      HasNodeSnoc(stmts);
      AuthoredNone(stmts[..|stmts| - 1], id);
    }
  }

  lemma {:induction false} LinksAre(chain: seq<string>, attrs: Attrs)
    ensures |Links(chain, attrs)| == if |chain| < 2 then 0 else |chain| - 1
    ensures forall j | 0 <= j < |Links(chain, attrs)| :: Links(chain, attrs)[j] == EdgeDef(chain[j], chain[j + 1], attrs)
    decreases |chain|
  {
    if |chain| >= 2 { LinksAre(chain[1..], attrs); }
  }

  lemma EdgesStep(sc: Scope, stmts: seq<Statement>, ed: Attrs)
    requires stmts != [] && EdgesMean(sc.edges, stmts[..|stmts| - 1], ed)
    requires forall k :: Get(sc.edgeDefaults, k) == EdgeDefaultAt(stmts[..|stmts| - 1], ed, k)
    ensures EdgesMean(Apply(sc, stmts[|stmts| - 1]).edges, stmts, ed)
  {
    hide MergeFrom, Links, EdgeDefaultAt, EdgeMeans;
    var n := |stmts| - 1;
    var before, last := stmts[..n], stmts[n];
    var edges := Apply(sc, last).edges;
    if last.Edge? { LinksAre(last.chain, sc.edgeDefaults + last.attrs); }
    forall i | 0 <= i < |edges| ensures EdgeMeans(edges[i], stmts, ed, Places(stmts)[i]) {
      if i < |sc.edges| {
        EarlierEdge(sc.edges[i], stmts, ed, Places(before)[i]);
      } else {
        NewEdge(edges[i], stmts, ed, i - |sc.edges|, sc.edgeDefaults);
      }
    }
  }

  lemma EarlierEdge(e: EdgeDef, stmts: seq<Statement>, ed: Attrs, p: Place)
    requires stmts != [] && EdgeMeans(e, stmts[..|stmts| - 1], ed, p)
    ensures EdgeMeans(e, stmts, ed, p)
  {
    hide EdgeDefaultAt;
    var before := stmts[..|stmts| - 1];
    assert before[..p.stmt] == stmts[..p.stmt];
    assert forall k :: EdgeAttrAt(before, ed, p.stmt, k) == EdgeAttrAt(stmts, ed, p.stmt, k);
  }

  lemma NewEdge(e: EdgeDef, stmts: seq<Statement>, ed: Attrs, j: nat, defaults: Attrs)
    requires stmts != [] && stmts[|stmts| - 1].Edge? && j + 1 < |stmts[|stmts| - 1].chain|
    requires var last := stmts[|stmts| - 1]; e == EdgeDef(last.chain[j], last.chain[j + 1], defaults + last.attrs)
    requires forall k :: Get(defaults, k) == EdgeDefaultAt(stmts[..|stmts| - 1], ed, k)
    ensures EdgeMeans(e, stmts, ed, Place(|stmts| - 1, j))
  {
    hide EdgeDefaultAt;
    forall k ensures Get(e.attrs, k) == EdgeAttrAt(stmts, ed, |stmts| - 1, k) {
      assert Get(defaults, k) == EdgeDefaultAt(stmts[..|stmts| - 1], ed, k);
    }
  }

  lemma SubgraphsStep(sc: Scope, stmts: seq<Statement>, nd: Attrs, ed: Attrs, inner: Scope)
    requires stmts != [] && SubgraphsMean(sc.subgraphs, stmts[..|stmts| - 1], nd, ed)
    requires InForce(stmts[..|stmts| - 1], nd, ed, sc.nodeDefaults, sc.edgeDefaults)
    requires var last := stmts[|stmts| - 1];
      last.Subgraph? ==>
        inner == MergeFrom(Open(sc.nodeDefaults, sc.edgeDefaults), last.body)
        && ScopeMeans(inner, last.body, sc.nodeDefaults, sc.edgeDefaults)
    ensures SubgraphsMean(Apply(sc, stmts[|stmts| - 1]).subgraphs, stmts, nd, ed)
  {
    hide MergeFrom, ScopeMeans, InForce;
    var last := stmts[|stmts| - 1];
    if last.Subgraph? {
      assert Follows(Apply(sc, last).subgraphs, sc.subgraphs, last.name, inner);
    }
  }

  lemma Nothing(nd: Attrs, ed: Attrs)
    ensures ScopeMeans(Open(nd, ed), [], nd, ed)
  {
  }

  /** MAIN RESULT. For every statement list and every opening defaults: the
      merged scope has exactly the attributes, nodes, edges and subgraphs that
      the statements say, each value from the statement that gives it. */
  lemma {:induction false} MergeMeans(stmts: seq<Statement>, nd: Attrs, ed: Attrs)
    ensures ScopeMeans(MergeFrom(Open(nd, ed), stmts), stmts, nd, ed)
    decreases stmts
  {
    hide MergeFrom, Apply, AttrsMean, NodesMean, EdgesMean, SubgraphsMean;
    if stmts == [] {
      NothingMerged(nd, ed);
    } else {
      var before, last := stmts[..|stmts| - 1], stmts[|stmts| - 1];
      var sc := MergeFrom(Open(nd, ed), before);
      MergeMeans(before, nd, ed);
      MergeSnoc(Open(nd, ed), stmts);
      DefaultsInForce(sc, before, nd, ed);
      AttrsStep(sc, stmts, nd, ed);
      NodesStep(sc, stmts, nd);
      EdgesStep(sc, stmts, ed);
      var inner := if last.Subgraph? then MergeFrom(Open(sc.nodeDefaults, sc.edgeDefaults), last.body) else sc;
      if last.Subgraph? { MergeMeans(last.body, sc.nodeDefaults, sc.edgeDefaults); }
      SubgraphsStep(sc, stmts, nd, ed, inner);
    }
  }

  lemma NothingMerged(nd: Attrs, ed: Attrs)
    ensures MergeFrom(Open(nd, ed), []) == Open(nd, ed) && ScopeMeans(Open(nd, ed), [], nd, ed)
  {
    Nothing(nd, ed);
  }

  lemma DefaultsInForce(sc: Scope, stmts: seq<Statement>, nd: Attrs, ed: Attrs)
    requires AttrsMean(sc.attrs, sc.nodeDefaults, sc.edgeDefaults, stmts, nd, ed)
    ensures InForce(stmts, nd, ed, sc.nodeDefaults, sc.edgeDefaults)
    ensures forall k :: Get(sc.nodeDefaults, k) == NodeDefaultAt(stmts, nd, k)
    ensures forall k :: Get(sc.edgeDefaults, k) == EdgeDefaultAt(stmts, ed, k)
  {
  }

  /** The same of the graph as a whole, which opens with no defaults. */
  lemma GraphMeans(name: string, stmts: seq<Statement>)
    ensures var g := Graph(name, Merge(stmts));
      && g.name == name
      && ScopeMeans(Scope(g.attrs, g.nodes, g.edges, g.subgraphs, g.nodeDefaults, g.edgeDefaults), stmts, map[], map[])
  {
    hide MergeFrom, ScopeMeans;
    MergeMeans(stmts, map[], map[]);
  }
}
