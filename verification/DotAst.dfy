/** The abstract syntax of the Attractor DOT dialect (crates/attractor-dot/src/ast.rs)
    and the statement list that the parser builds before merging it. */
module DotAst {
  import opened Wrappers

  /** A float is kept as the lexeme it is written with. */
  datatype Value =
    | Str(s: string)
    | Integer(i: int)
    | Float(lexeme: string)
    | Boolean(b: bool)
    | Duration(millis: nat)

  type Attrs = map<string, Value>

  /** `attrs` are the effective attributes, `authored` those written on the node itself. */
  datatype NodeDef = NodeDef(id: string, attrs: Attrs, authored: Attrs)

  datatype EdgeDef = EdgeDef(from: string, to: string, attrs: Attrs)

  datatype SubgraphDef = SubgraphDef(
    name: Option<string>, attrs: Attrs, nodes: map<string, NodeDef>,
    edges: seq<EdgeDef>, nodeDefaults: Attrs, edgeDefaults: Attrs)

  datatype DotGraph = DotGraph(
    name: string, attrs: Attrs, nodes: map<string, NodeDef>, edges: seq<EdgeDef>,
    subgraphs: seq<SubgraphDef>, nodeDefaults: Attrs, edgeDefaults: Attrs)

  datatype Statement =
    | GraphAttrs(attrs: Attrs)
    | NodeDefaults(attrs: Attrs)
    | EdgeDefaults(attrs: Attrs)
    | Node(id: string, attrs: Attrs)
    | Edge(chain: seq<string>, attrs: Attrs)
    | Subgraph(name: Option<string>, body: seq<Statement>)
    | GraphAttrDecl(key: string, value: Value)
}
