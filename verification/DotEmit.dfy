/** The serializer as a statement list: which statements it prints, and in
    which order (crates/attractor-dot/src/serializer.rs:40-196). */
module DotEmit {
  import opened DotAst
  import opened Order

  /** Attributes a node took from the defaults in force when it was declared. */
  function Inherited(n: NodeDef): Attrs {
    map k | k in n.attrs && k !in n.authored :: n.attrs[k]
  }

  /** No other remaining node lacks a key that node `id` inherits. */
  predicate Ready(nodes: map<string, NodeDef>, id: string, remaining: set<string>)
    requires id in nodes && remaining <= nodes.Keys
  {
    forall c | c in remaining :: nodes[c].id == nodes[id].id || Inherited(nodes[id]).Keys <= nodes[c].attrs.Keys
  }

  /** The first ready node in key order, else the first node. */
  function NextId(nodes: map<string, NodeDef>, remaining: set<string>): (id: string)
    requires remaining != {} && remaining <= nodes.Keys
    ensures id in remaining
    ensures (exists r :: r in remaining && Ready(nodes, r, remaining)) ==> Ready(nodes, id, remaining)
  {
    var ready := set r | r in remaining && Ready(nodes, r, remaining);
    assert forall r | r in remaining && Ready(nodes, r, remaining) :: r in ready;
    if ready != {} then Least(ready) else Least(remaining)
  }

  /** Among the nodes that are ready, or all if none is, the first in the order
      of a dictionary. */
  lemma NextIdMeans(nodes: map<string, NodeDef>, remaining: set<string>)
    requires remaining != {} && remaining <= nodes.Keys
    ensures var id := NextId(nodes, remaining);
      && id in remaining
      && (forall r | r in remaining && Ready(nodes, r, remaining) :: Ready(nodes, id, remaining) && Leq(id, r))
      && ((forall r | r in remaining :: !Ready(nodes, r, remaining)) ==> forall r | r in remaining :: Leq(id, r))
  {
    hide Ready, Leq;
    var ready := set r | r in remaining && Ready(nodes, r, remaining);
    assert forall r | r in remaining && Ready(nodes, r, remaining) :: r in ready;
    assert ready == {} ==> forall r | r in remaining :: !Ready(nodes, r, remaining);
  }

  /** The inherited attributes that the defaults printed so far do not give. */
  function Delta(inherited: Attrs, current: Attrs): Attrs {
    map k | k in inherited && !(k in current && current[k] == inherited[k]) :: inherited[k]
  }

  function DefaultsBlock(attrs: Attrs): seq<Statement> {
    if attrs == map[] then [] else [NodeDefaults(attrs)]
  }

  function EdgeDefaultsBlock(attrs: Attrs): seq<Statement> {
    if attrs == map[] then [] else [EdgeDefaults(attrs)]
  }

  function EmitNodes(nodes: map<string, NodeDef>, remaining: set<string>, current: Attrs): seq<Statement>
    requires remaining <= nodes.Keys
    decreases remaining
  {
    if remaining == {} then []
    else
      var id := NextId(nodes, remaining);
      var delta := Delta(Inherited(nodes[id]), current);
      DefaultsBlock(delta) + [Node(id, nodes[id].authored)]
        + EmitNodes(nodes, remaining - {id}, current + delta)
  }

  /** The attributes with these keys. */
  ghost function Picked(attrs: Attrs, keys: seq<string>): Attrs {
    map k | k in keys && k in attrs :: attrs[k]
  }

  /** All keys pick everything. */
  lemma AllPicked(attrs: Attrs, keys: seq<string>)
    requires forall k :: k in keys <==> k in attrs
    ensures map[] + Picked(attrs, keys) == attrs
  {
  }

  function EmitAttrs(attrs: Attrs, keys: seq<string>): seq<Statement>
    requires forall k | k in keys :: k in attrs
  {
    if keys == [] then []
    else [GraphAttrDecl(keys[0], attrs[keys[0]])] + EmitAttrs(attrs, keys[1..])
  }

  function EmitEdges(edges: seq<EdgeDef>): seq<Statement> {
    if edges == [] then []
    else [Edge([edges[0].from, edges[0].to], edges[0].attrs)] + EmitEdges(edges[1..])
  }

  function EmitBody(attrs: Attrs, subgraphs: seq<Statement>, nodes: map<string, NodeDef>,
                    edges: seq<EdgeDef>, nodeDefaults: Attrs, edgeDefaults: Attrs): seq<Statement> {
    EmitAttrs(attrs, Sorted(attrs.Keys)) + subgraphs + EmitNodes(nodes, nodes.Keys, map[])
      + EmitEdges(edges) + DefaultsBlock(nodeDefaults) + EdgeDefaultsBlock(edgeDefaults)
  }

  function EmitSubgraph(sg: SubgraphDef): Statement {
    Subgraph(sg.name, EmitBody(sg.attrs, [], sg.nodes, sg.edges, sg.nodeDefaults, sg.edgeDefaults))
  }

  function EmitSubgraphs(sgs: seq<SubgraphDef>): seq<Statement> {
    if sgs == [] then [] else [EmitSubgraph(sgs[0])] + EmitSubgraphs(sgs[1..])
  }

  function Emit(g: DotGraph): seq<Statement> {
    EmitBody(g.attrs, EmitSubgraphs(g.subgraphs), g.nodes, g.edges, g.nodeDefaults, g.edgeDefaults)
  }
}
