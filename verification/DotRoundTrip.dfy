/** Printing a graph and merging the printed statements again: exactly which
    graphs survive, and that every merged graph does. */
module DotRoundTrip {
  import opened DotAst
  import opened DotMerge
  import opened DotEmit
  import opened Order

  // ---------------------------------------------------------------------
  // Which scopes survive
  // ---------------------------------------------------------------------

  /** Every non-empty set of nodes has one that may be printed first. */
  ghost predicate Orderable(nodes: map<string, NodeDef>, within: set<string>)
    requires within <= nodes.Keys
  {
    forall s: set<string> | s <= within && s != {} :: HasReady(nodes, s)
  }

  ghost predicate HasReady(nodes: map<string, NodeDef>, s: set<string>)
    requires s <= nodes.Keys
  {
    exists id :: id in s && Ready(nodes, id, s)
  }

  ghost predicate WellFormed(n: NodeDef, id: string) {
    n.id == id && forall k | k in n.authored :: k in n.attrs && n.attrs[k] == n.authored[k]
  }

  ghost predicate WellFormedNodes(nodes: map<string, NodeDef>, within: set<string>)
    requires within <= nodes.Keys
  {
    forall id | id in within :: WellFormed(nodes[id], id)
  }

  ghost predicate InheritsFrom(nodes: map<string, NodeDef>, keys: set<string>) {
    forall id | id in nodes :: Inherited(nodes[id]).Keys <= keys
  }

  ghost predicate EdgesInside(edges: seq<EdgeDef>, ids: set<string>) {
    forall i | 0 <= i < |edges| :: edges[i].from in ids && edges[i].to in ids
  }

  /** The condition on one scope. */
  ghost predicate SerializableScope(nodes: map<string, NodeDef>, edges: seq<EdgeDef>, nodeDefaults: Attrs) {
    && WellFormedNodes(nodes, nodes.Keys)
    && Orderable(nodes, nodes.Keys)
    && InheritsFrom(nodes, nodeDefaults.Keys)
    && EdgesInside(edges, nodes.Keys)
  }

  ghost predicate SerializableSubgraph(sg: SubgraphDef) {
    SerializableScope(sg.nodes, sg.edges, sg.nodeDefaults)
  }

  ghost predicate Serializable(g: DotGraph) {
    && SerializableScope(g.nodes, g.edges, g.nodeDefaults)
    && forall i | 0 <= i < |g.subgraphs| :: SerializableSubgraph(g.subgraphs[i])
  }

  // ---------------------------------------------------------------------
  // Replaying the node section
  // ---------------------------------------------------------------------

  /** Every key in `keys` is an attribute of every remaining node. */
  ghost predicate AllHave(nodes: map<string, NodeDef>, remaining: set<string>, keys: set<string>)
    requires remaining <= nodes.Keys
  {
    forall id | id in remaining :: keys <= nodes[id].attrs.Keys
  }

  /** The scope after one step of the node section. */
  function Declared(sc: Scope, id: string, delta: Attrs, authored: Attrs): Scope {
    var nd := sc.nodeDefaults + delta;
    sc.(nodes := sc.nodes[id := NodeDef(id, nd + authored, authored)], nodeDefaults := nd)
  }

  lemma MergeCons(sc: Scope, st: Statement, rest: seq<Statement>)
    ensures MergeFrom(sc, [st] + rest) == MergeFrom(Apply(sc, st), rest)
  {
    assert ([st] + rest)[1..] == rest;
  }

  lemma MergeOneNode(sc: Scope, id: string, delta: Attrs, authored: Attrs, rest: seq<Statement>)
    ensures MergeFrom(sc, DefaultsBlock(delta) + [Node(id, authored)] + rest)
         == MergeFrom(Declared(sc, id, delta, authored), rest)
  {
    var sc1 := sc.(nodeDefaults := sc.nodeDefaults + delta);
    var node := [Node(id, authored)];
    if delta == map[] {
      assert DefaultsBlock(delta) + node + rest == node + rest;
      assert sc1 == sc;
    } else {
      assert DefaultsBlock(delta) + node + rest == [NodeDefaults(delta)] + (node + rest);
      MergeCons(sc, NodeDefaults(delta), node + rest);
    }
    MergeCons(sc1, Node(id, authored), rest);
  }

  /** The keys that the node section leaves in the defaults. */
  ghost function InheritedKeys(nodes: map<string, NodeDef>, remaining: set<string>): set<string>
    requires remaining <= nodes.Keys
  {
    set id, k | id in remaining && k in Inherited(nodes[id]) :: k
  }

  /** The scope that merging the printed node section yields. */
  ghost function Replay(nodes: map<string, NodeDef>, remaining: set<string>, sc: Scope): Scope
    requires remaining <= nodes.Keys
  {
    MergeFrom(sc, EmitNodes(nodes, remaining, sc.nodeDefaults))
  }

  /** `r` differs from `sc` only in node defaults and in the nodes `ids`. */
  ghost predicate Framed(sc: Scope, r: Scope, ids: set<string>) {
    && r == sc.(nodes := r.nodes, nodeDefaults := r.nodeDefaults)
    && r.nodes.Keys == sc.nodes.Keys + ids
    && forall id | id in sc.nodes && id !in ids :: r.nodes[id] == sc.nodes[id]
  }

  /** One step of the replay: declare the chosen node, then replay the rest. */
  lemma ReplayStep(nodes: map<string, NodeDef>, remaining: set<string>, sc: Scope)
    requires remaining <= nodes.Keys && remaining != {}
    ensures var id := NextId(nodes, remaining);
      var sc1 := Declared(sc, id, Delta(Inherited(nodes[id]), sc.nodeDefaults), nodes[id].authored);
      && Replay(nodes, remaining, sc) == Replay(nodes, remaining - {id}, sc1)
      && sc1.nodeDefaults.Keys == sc.nodeDefaults.Keys + Inherited(nodes[id]).Keys
  {
    var id := NextId(nodes, remaining);
    var inherited := Inherited(nodes[id]);
    var delta := Delta(inherited, sc.nodeDefaults);
    MergeOneNode(sc, id, delta, nodes[id].authored,
                 EmitNodes(nodes, remaining - {id}, sc.nodeDefaults + delta));
    assert (sc.nodeDefaults + delta).Keys == sc.nodeDefaults.Keys + inherited.Keys;
  }

  lemma ReplayNothing(nodes: map<string, NodeDef>, sc: Scope)
    ensures Replay(nodes, {}, sc) == sc && InheritedKeys(nodes, {}) == {}
  {
  }

  lemma FrameStep(sc: Scope, id: string, delta: Attrs, authored: Attrs, r: Scope, rest: set<string>)
    requires Framed(Declared(sc, id, delta, authored), r, rest)
    ensures Framed(sc, r, rest + {id})
  {
  }

  /** Only nodes and node defaults change, and the defaults gain the inherited keys. */
  lemma {:induction false} ReplayFrame(nodes: map<string, NodeDef>, remaining: set<string>, sc: Scope)
    requires remaining <= nodes.Keys
    ensures Framed(sc, Replay(nodes, remaining, sc), remaining)
    ensures Replay(nodes, remaining, sc).nodeDefaults.Keys
         == sc.nodeDefaults.Keys + InheritedKeys(nodes, remaining)
    decreases remaining
  {
    hide Inherited, NextId, Delta, EmitNodes, Replay, InheritedKeys;
    if remaining == {} {
      ReplayNothing(nodes, sc);
    } else {
      hide Framed;
      var id := NextId(nodes, remaining);
      var delta := Delta(Inherited(nodes[id]), sc.nodeDefaults);
      var sc1 := Declared(sc, id, delta, nodes[id].authored);
      ReplayStep(nodes, remaining, sc);
      ReplayFrame(nodes, remaining - {id}, sc1);
      FrameStep(sc, id, delta, nodes[id].authored, Replay(nodes, remaining - {id}, sc1), remaining - {id});
      InheritedKeysSplit(nodes, remaining, id);
      assert remaining == remaining - {id} + {id};
    }
  }

  lemma InheritedKeysSplit(nodes: map<string, NodeDef>, remaining: set<string>, id: string)
    requires remaining <= nodes.Keys && id in remaining
    ensures InheritedKeys(nodes, remaining)
         == Inherited(nodes[id]).Keys + InheritedKeys(nodes, remaining - {id})
  {
  }

  /** What a node declared after `delta` gets, and when that is the node itself. */
  lemma DeclaredIsNode(n: NodeDef, id: string, current: Attrs)
    ensures (NodeDef(id, current + Delta(Inherited(n), current) + n.authored, n.authored) == n)
        <==> (WellFormed(n, id) && current.Keys <= n.attrs.Keys)
  {
    var inherited := Inherited(n);
    var nd := current + Delta(inherited, current);
    assert forall k | k in inherited :: k in nd && nd[k] == inherited[k];
    assert nd.Keys == current.Keys + inherited.Keys;
    if WellFormed(n, id) && current.Keys <= n.attrs.Keys {
      assert nd + n.authored == n.attrs;
    }
    if nd + n.authored == n.attrs {
      assert forall k | k in current :: k in nd + n.authored;
    }
  }

  /** The merged scope holds exactly the remaining nodes it was printed from. */
  ghost predicate Restored(nodes: map<string, NodeDef>, remaining: set<string>, r: Scope)
    requires remaining <= nodes.Keys
  {
    forall id | id in remaining :: id in r.nodes && r.nodes[id] == nodes[id]
  }

  /** The nodes can be printed and merged back when `keys` are already defaults. */
  ghost predicate Replayable(nodes: map<string, NodeDef>, remaining: set<string>, keys: set<string>)
    requires remaining <= nodes.Keys
  {
    WellFormedNodes(nodes, remaining) && Orderable(nodes, remaining) && AllHave(nodes, remaining, keys)
  }

  /** The printed node section restores exactly the nodes it was printed from
      if and only if they are well formed, orderable and lack no default
      already in force. */
  lemma {:induction false} ReplayExact(nodes: map<string, NodeDef>, remaining: set<string>, sc: Scope)
    requires remaining <= nodes.Keys
    ensures Restored(nodes, remaining, Replay(nodes, remaining, sc))
        <==> Replayable(nodes, remaining, sc.nodeDefaults.Keys)
    decreases remaining
  {
    if remaining != {} {
      var id := NextId(nodes, remaining);
      var rest := remaining - {id};
      var sc1 := Declared(sc, id, Delta(Inherited(nodes[id]), sc.nodeDefaults), nodes[id].authored);
      ReplayStep(nodes, remaining, sc);
      ReplayFrame(nodes, rest, sc1);
      var r := Replay(nodes, remaining, sc);
      assert r.nodes[id] == sc1.nodes[id];
      assert Restored(nodes, remaining, r) <==> (Restored(nodes, rest, r) && r.nodes[id] == nodes[id]);
      ReplayExact(nodes, rest, sc1);
      DeclaredIsNode(nodes[id], id, sc.nodeDefaults);
      ReplayableStep(nodes, remaining, sc.nodeDefaults.Keys);
    }
  }

  /** Replayability, peeled by one node. */
  lemma ReplayableStep(nodes: map<string, NodeDef>, remaining: set<string>, keys: set<string>)
    requires remaining <= nodes.Keys && remaining != {}
    ensures var id := NextId(nodes, remaining);
      Replayable(nodes, remaining, keys)
      <==> (&& WellFormed(nodes[id], id) && keys <= nodes[id].attrs.Keys
            && Replayable(nodes, remaining - {id}, keys + Inherited(nodes[id]).Keys))
  {
    var id := NextId(nodes, remaining);
    var rest := remaining - {id};
    var inherited := Inherited(nodes[id]).Keys;
    assert rest + {id} == remaining;
    assert WellFormedNodes(nodes, remaining) <==> (WellFormedNodes(nodes, rest) && WellFormed(nodes[id], id));
    AllHaveStep(nodes, rest, id, keys, inherited);
    if WellFormedNodes(nodes, remaining) {
      OrderableStep(nodes, remaining);
    }
  }

  lemma AllHaveStep(nodes: map<string, NodeDef>, rest: set<string>, id: string, keys: set<string>, more: set<string>)
    requires rest <= nodes.Keys && id in nodes
    ensures AllHave(nodes, rest + {id}, keys) <==> (AllHave(nodes, rest, keys) && keys <= nodes[id].attrs.Keys)
    ensures AllHave(nodes, rest, keys + more) <==> (AllHave(nodes, rest, keys) && AllHave(nodes, rest, more))
  {
    if AllHave(nodes, rest + {id}, keys) {
      assert forall c | c in rest :: c in rest + {id};
      assert id in rest + {id};
    }
    if AllHave(nodes, rest, keys + more) {
      assert forall c | c in rest :: keys <= keys + more <= nodes[c].attrs.Keys;
    }
  }

  /** Removing the chosen node keeps orderability; adding it back needs that
      the others have the keys it inherits. */
  lemma OrderableStep(nodes: map<string, NodeDef>, remaining: set<string>)
    requires remaining <= nodes.Keys && remaining != {} && WellFormedNodes(nodes, remaining)
    ensures var id := NextId(nodes, remaining);
      Orderable(nodes, remaining)
      <==> (Orderable(nodes, remaining - {id}) && AllHave(nodes, remaining - {id}, Inherited(nodes[id]).Keys))
  {
    var id := NextId(nodes, remaining);
    if Orderable(nodes, remaining) {
      ChosenIsReady(nodes, remaining);
    }
    if Orderable(nodes, remaining - {id}) && AllHave(nodes, remaining - {id}, Inherited(nodes[id]).Keys) {
      OrderableExtends(nodes, remaining - {id}, id);
      assert remaining - {id} + {id} == remaining;
    }
  }

  lemma ChosenIsReady(nodes: map<string, NodeDef>, remaining: set<string>)
    requires remaining <= nodes.Keys && remaining != {}
    requires WellFormedNodes(nodes, remaining) && Orderable(nodes, remaining)
    ensures AllHave(nodes, remaining - {NextId(nodes, remaining)}, Inherited(nodes[NextId(nodes, remaining)]).Keys)
  {
    assert HasReady(nodes, remaining);
    assert Ready(nodes, NextId(nodes, remaining), remaining);
  }

  /** A node whose inherited keys all the others have can go first. */
  lemma OrderableExtends(nodes: map<string, NodeDef>, rest: set<string>, id: string)
    requires rest <= nodes.Keys && id in nodes
    requires Orderable(nodes, rest) && AllHave(nodes, rest, Inherited(nodes[id]).Keys)
    ensures Orderable(nodes, rest + {id})
  {
    hide Inherited;
    forall s: set<string> | s <= rest + {id} && s != {}
      ensures HasReady(nodes, s)
    {
      if id in s {
        assert Ready(nodes, id, s);
      } else {
        assert s <= rest;
      }
    }
  }

  /** On orderable nodes the node chosen next is ready, whatever is left. */
  lemma ChosenIfOrderable(nodes: map<string, NodeDef>, remaining: set<string>)
    requires remaining <= nodes.Keys && remaining != {}
    requires Orderable(nodes, nodes.Keys)
    ensures Ready(nodes, NextId(nodes, remaining), remaining)
  {
    assert HasReady(nodes, remaining);
  }

  // ---------------------------------------------------------------------
  // Replaying a whole scope
  // ---------------------------------------------------------------------

  lemma PickedCons(base: Attrs, attrs: Attrs, keys: seq<string>)
    ensures keys == [] ==> base + Picked(attrs, keys) == base
    ensures keys != [] && keys[0] in attrs ==>
      base[keys[0] := attrs[keys[0]]] + Picked(attrs, keys[1..]) == base + Picked(attrs, keys)
  {
  }

  lemma {:induction false} MergeAttrs(sc: Scope, attrs: Attrs, keys: seq<string>)
    requires forall k | k in keys :: k in attrs
    ensures MergeFrom(sc, EmitAttrs(attrs, keys))
         == sc.(attrs := sc.attrs + Picked(attrs, keys))
    decreases |keys|
  {
    hide Picked;
    PickedCons(sc.attrs, attrs, keys);
    if keys != [] {
      var k0 := keys[0];
      MergeCons(sc, GraphAttrDecl(k0, attrs[k0]), EmitAttrs(attrs, keys[1..]));
      MergeAttrs(sc.(attrs := sc.attrs[k0 := attrs[k0]]), attrs, keys[1..]);
    }
  }

  /** All endpoints of the edges. */
  ghost function Endpoints(edges: seq<EdgeDef>): set<string> {
    if edges == [] then {} else {edges[0].from, edges[0].to} + Endpoints(edges[1..])
  }

  lemma {:induction false} EndpointsInside(edges: seq<EdgeDef>, ids: set<string>)
    ensures Endpoints(edges) <= ids <==> EdgesInside(edges, ids)
  {
    if edges != [] {
      EndpointsInside(edges[1..], ids);
      assert EdgesInside(edges, ids) ==> EdgesInside(edges[1..], ids);
      if EdgesInside(edges[1..], ids) && edges[0].from in ids && edges[0].to in ids {
        forall i | 0 <= i < |edges| ensures edges[i].from in ids && edges[i].to in ids {
          if i > 0 {
            assert edges[i] == edges[1..][i - 1];
          }
        }
      }
    }
  }

  /** `r` gained `edges`, and nodes only for endpoints it did not have. */
  ghost predicate EdgesAdded(sc: Scope, r: Scope, edges: seq<EdgeDef>) {
    && r == sc.(nodes := r.nodes, edges := sc.edges + edges)
    && r.nodes.Keys == sc.nodes.Keys + Endpoints(edges)
    && forall id | id in sc.nodes :: r.nodes[id] == sc.nodes[id]
  }

  lemma ApplyEdge(sc: Scope, e: EdgeDef)
    requires sc.edgeDefaults == map[]
    ensures EdgesAdded(sc, Apply(sc, Edge([e.from, e.to], e.attrs)), [e])
  {
    var chain := [e.from, e.to];
    assert Links(chain, e.attrs) == [e] by { assert Links(chain[1..], e.attrs) == []; }
    assert sc.edgeDefaults + e.attrs == e.attrs;
    assert Endpoints([e]) == {e.from, e.to};
  }

  lemma NoEdges(sc: Scope)
    ensures MergeFrom(sc, EmitEdges([])) == sc && EdgesAdded(sc, sc, [])
  {
    assert sc.edges + [] == sc.edges;
  }

  lemma {:induction false} MergeEdges(sc: Scope, edges: seq<EdgeDef>)
    requires sc.edgeDefaults == map[]
    ensures EdgesAdded(sc, MergeFrom(sc, EmitEdges(edges)), edges)
    decreases |edges|
  {
    hide Apply, MergeFrom;
    if edges == [] {
      NoEdges(sc);
    } else {
      var st := Edge([edges[0].from, edges[0].to], edges[0].attrs);
      MergeCons(sc, st, EmitEdges(edges[1..]));
      ApplyEdge(sc, edges[0]);
      assert Apply(sc, st).edgeDefaults == map[];
      MergeEdges(Apply(sc, st), edges[1..]);
      assert edges[..1] == [edges[0]];
      hide EdgesAdded;
      EdgesAddedStep(sc, Apply(sc, st), MergeFrom(Apply(sc, st), EmitEdges(edges[1..])), edges);
    }
  }

  lemma EdgesAddedStep(sc: Scope, sc1: Scope, r: Scope, edges: seq<EdgeDef>)
    requires edges != [] && EdgesAdded(sc, sc1, edges[..1]) && EdgesAdded(sc1, r, edges[1..])
    ensures EdgesAdded(sc, r, edges)
  {
    assert sc.edges + edges[..1] + edges[1..] == sc.edges + edges;
    assert Endpoints(edges[..1]) == {edges[0].from, edges[0].to};
  }

  lemma MergeDefaults(sc: Scope, nodeDefaults: Attrs, edgeDefaults: Attrs)
    requires sc.edgeDefaults == map[]
    ensures MergeFrom(sc, DefaultsBlock(nodeDefaults) + EdgeDefaultsBlock(edgeDefaults))
         == sc.(nodeDefaults := sc.nodeDefaults + nodeDefaults, edgeDefaults := edgeDefaults)
  {
    var tail := EdgeDefaultsBlock(edgeDefaults);
    var sc1 := sc.(nodeDefaults := sc.nodeDefaults + nodeDefaults);
    if nodeDefaults == map[] {
      assert sc1 == sc;
      assert DefaultsBlock(nodeDefaults) + tail == tail;
    } else {
      MergeCons(sc, NodeDefaults(nodeDefaults), tail);
    }
    if edgeDefaults != map[] {
      MergeCons(sc1, EdgeDefaults(edgeDefaults), []);
      assert tail == [EdgeDefaults(edgeDefaults)] + [];
      assert map[] + edgeDefaults == edgeDefaults;
    }
  }

  /** The scope after attributes and subgraphs of a printed body. */
  ghost function Prologue(attrs: Attrs, subgraphs: seq<SubgraphDef>): Scope {
    Open(map[], map[]).(attrs := attrs, subgraphs := subgraphs)
  }

  lemma MergeSections(sc: Scope, a: seq<Statement>, b: seq<Statement>, c: seq<Statement>, d: seq<Statement>, e: seq<Statement>, f: seq<Statement>)
    ensures MergeFrom(sc, a + b + c + d + e + f)
         == MergeFrom(MergeFrom(MergeFrom(MergeFrom(MergeFrom(sc, a), b), c), d), e + f)
  {
    assert a + b + c + d + e + f == a + b + c + d + (e + f);
    MergeConcat(sc, a + b + c + d, e + f);
    MergeConcat(sc, a + b + c, d);
    MergeConcat(sc, a + b, c);
    MergeConcat(sc, a, b);
  }

  lemma MergeSortedAttrs(attrs: Attrs)
    ensures MergeFrom(Open(map[], map[]), EmitAttrs(attrs, Sorted(attrs.Keys))) == Prologue(attrs, [])
  {
    hide MergeFrom, EmitAttrs;
    MergeAttrs(Open(map[], map[]), attrs, Sorted(attrs.Keys));
    AllPicked(attrs, Sorted(attrs.Keys));
  }

  /** Merging a printed body runs through its sections. */
  lemma MergeBody(attrs: Attrs, subs: seq<Statement>, out: seq<SubgraphDef>, nodes: map<string, NodeDef>,
                  edges: seq<EdgeDef>, nodeDefaults: Attrs, edgeDefaults: Attrs)
    requires MergeFrom(Prologue(attrs, []), subs) == Prologue(attrs, out)
    ensures Merge(EmitBody(attrs, subs, nodes, edges, nodeDefaults, edgeDefaults))
         == MergeFrom(MergeFrom(Replay(nodes, nodes.Keys, Prologue(attrs, out)), EmitEdges(edges)),
                      DefaultsBlock(nodeDefaults) + EdgeDefaultsBlock(edgeDefaults))
  {
    MergeSections(Open(map[], map[]), EmitAttrs(attrs, Sorted(attrs.Keys)), subs, EmitNodes(nodes, nodes.Keys, map[]),
                  EmitEdges(edges), DefaultsBlock(nodeDefaults), EdgeDefaultsBlock(edgeDefaults));
    MergeSortedAttrs(attrs);
  }

  /** A printed body merges back to the scope it was printed from if and only
      if that scope is serializable; attributes, edges, subgraphs and edge
      defaults come back in any case. */
  lemma BodyExact(attrs: Attrs, subs: seq<Statement>, out: seq<SubgraphDef>, nodes: map<string, NodeDef>,
                  edges: seq<EdgeDef>, nodeDefaults: Attrs, edgeDefaults: Attrs)
    requires MergeFrom(Prologue(attrs, []), subs) == Prologue(attrs, out)
    ensures var r := Merge(EmitBody(attrs, subs, nodes, edges, nodeDefaults, edgeDefaults));
      && r == Scope(attrs, r.nodes, edges, out, r.nodeDefaults, edgeDefaults)
      && ((r.nodes == nodes && r.nodeDefaults == nodeDefaults)
          <==> SerializableScope(nodes, edges, nodeDefaults))
  {
    MergeBody(attrs, subs, out, nodes, edges, nodeDefaults, edgeDefaults);
    var r1 := Replay(nodes, nodes.Keys, Prologue(attrs, out));
    ReplayFrame(nodes, nodes.Keys, Prologue(attrs, out));
    ReplayExact(nodes, nodes.Keys, Prologue(attrs, out));
    var r2 := MergeFrom(r1, EmitEdges(edges));
    MergeEdges(r1, edges);
    MergeDefaults(r2, nodeDefaults, edgeDefaults);
    SectionsExact(Prologue(attrs, out), r1, r2, nodes, edges, nodeDefaults);
  }

  /** The three sections that can go wrong, put together. */
  lemma SectionsExact(p: Scope, r1: Scope, r2: Scope, nodes: map<string, NodeDef>, edges: seq<EdgeDef>, nodeDefaults: Attrs)
    requires p.nodes == map[] && p.nodeDefaults == map[]
    requires Framed(p, r1, nodes.Keys) && r1.nodeDefaults.Keys == p.nodeDefaults.Keys + InheritedKeys(nodes, nodes.Keys)
    requires Restored(nodes, nodes.Keys, r1) <==> Replayable(nodes, nodes.Keys, p.nodeDefaults.Keys)
    requires EdgesAdded(r1, r2, edges)
    ensures (r2.nodes == nodes && r2.nodeDefaults + nodeDefaults == nodeDefaults)
        <==> SerializableScope(nodes, edges, nodeDefaults)
  {
    hide Inherited, Orderable;
    NodesExact(nodes, edges, r1, r2);
    DefaultsExact(nodes, r1.nodeDefaults, nodeDefaults);
    assert AllHave(nodes, nodes.Keys, {});
  }

  lemma NodesExact(nodes: map<string, NodeDef>, edges: seq<EdgeDef>, r1: Scope, r2: Scope)
    requires r1.nodes.Keys == nodes.Keys
    requires r2.nodes.Keys == r1.nodes.Keys + Endpoints(edges)
    requires forall id | id in r1.nodes :: r2.nodes[id] == r1.nodes[id]
    ensures (r2.nodes == nodes) <==> (Restored(nodes, nodes.Keys, r1) && EdgesInside(edges, nodes.Keys))
  {
    EndpointsInside(edges, nodes.Keys);
    if r2.nodes == nodes {
      assert forall id | id in nodes :: id in r1.nodes;
    }
    if EdgesInside(edges, nodes.Keys) {
      assert r2.nodes.Keys == nodes.Keys;
    }
  }

  lemma DefaultsExact(nodes: map<string, NodeDef>, current: Attrs, nodeDefaults: Attrs)
    requires current.Keys == InheritedKeys(nodes, nodes.Keys)
    ensures (current + nodeDefaults == nodeDefaults) <==> InheritsFrom(nodes, nodeDefaults.Keys)
  {
    if current + nodeDefaults == nodeDefaults {
      assert current.Keys <= (current + nodeDefaults).Keys;
      forall id | id in nodes ensures Inherited(nodes[id]).Keys <= nodeDefaults.Keys {
        assert Inherited(nodes[id]).Keys <= current.Keys;
      }
    }
    if InheritsFrom(nodes, nodeDefaults.Keys) {
      assert current.Keys <= nodeDefaults.Keys;
    }
  }

  // ---------------------------------------------------------------------
  // Subgraphs and whole graphs
  // ---------------------------------------------------------------------

  /** A subgraph after printing and merging. */
  ghost function Reread(sg: SubgraphDef): SubgraphDef {
    AsSubgraph(sg.name, Merge(EmitSubgraph(sg).body))
  }

  ghost function RereadAll(sgs: seq<SubgraphDef>): (out: seq<SubgraphDef>)
    ensures |out| == |sgs|
    ensures forall i | 0 <= i < |sgs| :: out[i] == Reread(sgs[i])
  {
    if sgs == [] then [] else [Reread(sgs[0])] + RereadAll(sgs[1..])
  }

  /** A subgraph survives if and only if its scope is serializable, and it
      never brings nested subgraphs back. */
  lemma SubgraphExact(sg: SubgraphDef)
    ensures Merge(EmitSubgraph(sg).body).subgraphs == []
    ensures (Reread(sg) == sg) <==> SerializableSubgraph(sg)
  {
    BodyExact(sg.attrs, [], [], sg.nodes, sg.edges, sg.nodeDefaults, sg.edgeDefaults);
  }

  lemma ApplySubgraph(attrs: Attrs, before: seq<SubgraphDef>, sg: SubgraphDef)
    ensures Apply(Prologue(attrs, before), EmitSubgraph(sg)) == Prologue(attrs, before + [Reread(sg)])
  {
    SubgraphExact(sg);
    assert before + [Reread(sg)] + [] == before + [Reread(sg)];
  }

  lemma Regroup<T>(a: seq<T>, x: T, b: seq<T>)
    ensures a + [x] + b == a + ([x] + b)
  {
  }

  lemma {:induction false} MergeSubgraphs(attrs: Attrs, before: seq<SubgraphDef>, sgs: seq<SubgraphDef>)
    ensures MergeFrom(Prologue(attrs, before), EmitSubgraphs(sgs)) == Prologue(attrs, before + RereadAll(sgs))
    decreases |sgs|
  {
    if sgs == [] {
      assert before + RereadAll(sgs) == before;
    } else {
      var first, rest, more := EmitSubgraph(sgs[0]), EmitSubgraphs(sgs[1..]), RereadAll(sgs[1..]);
      MergeCons(Prologue(attrs, before), first, rest);
      ApplySubgraph(attrs, before, sgs[0]);
      MergeSubgraphs(attrs, before + [Reread(sgs[0])], sgs[1..]);
      assert MergeFrom(Prologue(attrs, before), [first] + rest) == Prologue(attrs, before + [Reread(sgs[0])] + more);
      Regroup(before, Reread(sgs[0]), more);
    }
  }

  /** MAIN RESULT. For every graph, hand-built ones included: printing it and
      merging the printed statements gives the graph back if and only if it
      is serializable. */
  lemma RoundTripExact(g: DotGraph)
    ensures (Graph(g.name, Merge(Emit(g))) == g) <==> Serializable(g)
  {
    hide EmitBody, SerializableScope, MergeFrom;
    MergeSubgraphs(g.attrs, [], g.subgraphs);
    var out := RereadAll(g.subgraphs);
    assert [] + out == out;
    BodyExact(g.attrs, EmitSubgraphs(g.subgraphs), out, g.nodes, g.edges, g.nodeDefaults, g.edgeDefaults);
    assert (out == g.subgraphs) <==> (forall i | 0 <= i < |g.subgraphs| :: SerializableSubgraph(g.subgraphs[i])) by {
      forall i | 0 <= i < |g.subgraphs|
        ensures (out[i] == g.subgraphs[i]) <==> SerializableSubgraph(g.subgraphs[i])
      {
        SubgraphExact(g.subgraphs[i]);
      }
    }
  }

  // ---------------------------------------------------------------------
  // Every merged graph is serializable
  // ---------------------------------------------------------------------

  ghost predicate SerializableMerge(sc: Scope) {
    && SerializableScope(sc.nodes, sc.edges, sc.nodeDefaults)
    && forall i | 0 <= i < |sc.subgraphs| :: SerializableSubgraph(sc.subgraphs[i])
  }

  ghost predicate NodesKept(nodes: map<string, NodeDef>, defaults: Attrs) {
    WellFormedNodes(nodes, nodes.Keys) && Orderable(nodes, nodes.Keys) && InheritsFrom(nodes, defaults.Keys)
  }

  /** A node declared under the current defaults goes last. */
  lemma DeclareKeeps(nodes: map<string, NodeDef>, n: NodeDef, defaults: Attrs)
    requires NodesKept(nodes, defaults) && n.attrs == defaults + n.authored
    ensures NodesKept(nodes[n.id := n], defaults)
  {
    var nodes' := nodes[n.id := n];
    forall s: set<string> | s <= nodes'.Keys && s != {} ensures HasReady(nodes', s) {
      var others := s - {n.id};
      if others == {} {
        assert s == {n.id};
        assert Ready(nodes', n.id, s);
      } else {
        assert others <= nodes.Keys;
        assert HasReady(nodes, others);
        var r :| r in others && Ready(nodes, r, others);
        assert Inherited(nodes[r]).Keys <= defaults.Keys <= n.attrs.Keys;
        assert Ready(nodes', r, s);
      }
    }
  }

  /** Growing the defaults keeps the condition. */
  lemma GrowDefaultsKeeps(sc: Scope, attrs: Attrs)
    requires SerializableScope(sc.nodes, sc.edges, sc.nodeDefaults)
    ensures SerializableScope(sc.nodes, sc.edges, sc.nodeDefaults + attrs)
  {
    forall id | id in sc.nodes ensures Inherited(sc.nodes[id]).Keys <= (sc.nodeDefaults + attrs).Keys {
      assert Inherited(sc.nodes[id]).Keys <= sc.nodeDefaults.Keys;
    }
  }

  lemma {:induction false} MentionKeeps(nodes: map<string, NodeDef>, chain: seq<string>, defaults: Attrs)
    requires NodesKept(nodes, defaults)
    ensures NodesKept(Mentioned(chain, defaults) + nodes, defaults)
    decreases |chain|
  {
    if chain == [] {
      assert Mentioned(chain, defaults) + nodes == nodes;
    } else {
      MentionKeeps(nodes, chain[1..], defaults);
      var rest := Mentioned(chain[1..], defaults) + nodes;
      MentionOne(nodes, chain, defaults);
      if chain[0] !in rest {
        DeclareKeeps(rest, NodeDef(chain[0], defaults, map[]), defaults);
      }
    }
  }

  lemma MentionOne(nodes: map<string, NodeDef>, chain: seq<string>, defaults: Attrs)
    requires chain != []
    ensures var rest := Mentioned(chain[1..], defaults) + nodes;
      Mentioned(chain, defaults) + nodes
      == if chain[0] in rest then rest else rest[chain[0] := NodeDef(chain[0], defaults, map[])]
    ensures defaults + map[] == defaults
  {
  }

  lemma {:induction false} LinksInside(chain: seq<string>, attrs: Attrs)
    ensures forall i | 0 <= i < |Links(chain, attrs)| ::
      Links(chain, attrs)[i].from in chain && Links(chain, attrs)[i].to in chain
    decreases |chain|
  {
    if |chain| >= 2 {
      LinksInside(chain[1..], attrs);
    }
  }

  lemma {:induction false} ApplyKeeps(sc: Scope, st: Statement)
    requires SerializableMerge(sc)
    ensures SerializableMerge(Apply(sc, st))
    decreases st, 0
  {
    match st
    case GraphAttrs(_) =>
    case EdgeDefaults(_) =>
    case GraphAttrDecl(_, _) =>
    case NodeDefaults(attrs) => GrowDefaultsKeeps(sc, attrs);
    case Node(id, attrs) => DeclareKeeps(sc.nodes, NodeDef(id, sc.nodeDefaults + attrs, attrs), sc.nodeDefaults);
    case Edge(chain, attrs) =>
      MentionKeeps(sc.nodes, chain, sc.nodeDefaults);
      LinksInside(chain, sc.edgeDefaults + attrs);
    case Subgraph(name, body) =>
      MergeFromKeeps(Open(sc.nodeDefaults, sc.edgeDefaults), body);
  }

  lemma {:induction false} MergeFromKeeps(sc: Scope, stmts: seq<Statement>)
    requires SerializableMerge(sc)
    ensures SerializableMerge(MergeFrom(sc, stmts))
    decreases stmts, 1
  {
    if stmts != [] {
      ApplyKeeps(sc, stmts[0]);
      MergeFromKeeps(Apply(sc, stmts[0]), stmts[1..]);
    }
  }

  /** MAIN RESULT. Whatever statements a source file holds, the merged graph
      is serializable: the writer never needs its fallback, and merging what
      it prints gives the same graph. */
  lemma MergedGraphsRoundTrip(name: string, stmts: seq<Statement>)
    ensures var g := Graph(name, Merge(stmts));
      Serializable(g) && Graph(name, Merge(Emit(g))) == g
  {
    MergeFromKeeps(Open(map[], map[]), stmts);
    RoundTripExact(Graph(name, Merge(stmts)));
  }

  /** MAIN RESULT. On the nodes of a parsed graph or of any of its subgraphs
      the lexical fallback is never taken: at every moment of the writer's
      loop the node it chooses is ready. */
  lemma FallbackNeverTaken(name: string, stmts: seq<Statement>, nodes: map<string, NodeDef>, remaining: set<string>)
    requires var g := Graph(name, Merge(stmts)); nodes == g.nodes || exists sg :: sg in g.subgraphs && nodes == sg.nodes
    requires remaining <= nodes.Keys && remaining != {}
    ensures Ready(nodes, NextId(nodes, remaining), remaining)
  {
    hide Merge, Emit, NextId, Ready, HasReady;
    MergedGraphsRoundTrip(name, stmts);
    ChosenIfOrderable(nodes, remaining);
  }
}
