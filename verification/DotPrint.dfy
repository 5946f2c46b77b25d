/** Source text of a statement list (crates/attractor-dot/src/serializer.rs).
    Each printer takes the text that follows, so that what it prints can be
    read back without regrouping. */
module DotPrint {
  import opened Wrappers
  import opened DotAst
  import opened Order
  import opened DotEmit

  // ---------------------------------------------------------------------
  // Values
  // ---------------------------------------------------------------------

  function Digit(d: nat): char
    requires d < 10
  {
    ('0' as int + d) as char
  }

  function Decimal(n: nat): string {
    if n < 10 then [Digit(n)] else Decimal(n / 10) + [Digit(n % 10)]
  }

  /** Only `\` and `"` are escaped. */
  function Escape(s: string): string {
    if s == "" then ""
    else (if s[0] == '\\' then "\\\\" else if s[0] == '"' then "\\\"" else [s[0]]) + Escape(s[1..])
  }

  function FormatValue(v: Value): string {
    match v
    case Str(s) => "\"" + (Escape(s) + "\"")
    case Integer(i) => if i < 0 then "-" + Decimal(-i) else Decimal(i)
    case Float(lexeme) => lexeme
    case Boolean(b) => if b then "true" else "false"
    case Duration(millis) => Decimal(millis) + "ms"
  }

  // ---------------------------------------------------------------------
  // Statements
  // ---------------------------------------------------------------------

  function Indent(depth: nat, more: string): string {
    if depth == 0 then more else "    " + Indent(depth - 1, more)
  }

  function PrintAttr(key: string, value: Value, more: string): string {
    key + ("=" + (FormatValue(value) + more))
  }

  /** Comma-separated attributes in the order of `keys`. */
  function PrintAttrs(attrs: Attrs, keys: seq<string>, more: string): string
    requires forall k | k in keys :: k in attrs
  {
    if keys == [] then more
    else
      var more' := PrintAttrs(attrs, keys[1..], more);
      PrintAttr(keys[0], attrs[keys[0]], if |keys| == 1 then more' else ", " + more')
  }

  function PrintBlock(attrs: Attrs, more: string): string {
    "[" + PrintAttrs(attrs, Sorted(attrs.Keys), "]" + more)
  }

  function PrintChain(chain: seq<string>, more: string): string {
    if chain == [] then more
    else chain[0] + (if |chain| == 1 then more else " -> " + PrintChain(chain[1..], more))
  }

  function PrintName(name: Option<string>, more: string): string {
    match name
    case None => more
    case Some(id) => " " + (id + more)
  }

  /** One statement on its own lines. */
  function Print(st: Statement, depth: nat, more: string): string
    decreases st, 0
  {
    match st
    case GraphAttrs(attrs) => Indent(depth, "graph " + PrintBlock(attrs, "\n" + more))
    case NodeDefaults(attrs) => Indent(depth, "node " + PrintBlock(attrs, "\n" + more))
    case EdgeDefaults(attrs) => Indent(depth, "edge " + PrintBlock(attrs, "\n" + more))
    case Node(id, attrs) =>
      Indent(depth, id + if attrs == map[] then ";\n" + more else " " + PrintBlock(attrs, "\n" + more))
    case Edge(chain, attrs) =>
      Indent(depth, PrintChain(chain, if attrs == map[] then "\n" + more else " " + PrintBlock(attrs, "\n" + more)))
    case Subgraph(name, body) =>
      Indent(depth, "subgraph" + PrintName(name, " {\n" + PrintAll(body, depth + 1, Indent(depth, "}\n" + more))))
    case GraphAttrDecl(key, value) => Indent(depth, PrintAttr(key, value, "\n" + more))
  }

  function PrintAll(stmts: seq<Statement>, depth: nat, more: string): string
    decreases stmts, 1
  {
    if stmts == [] then more else Print(stmts[0], depth, PrintAll(stmts[1..], depth, more))
  }

  /** The source text of a graph. */
  function ToDot(g: DotGraph): string {
    "digraph " + (g.name + (" {\n" + PrintAll(Emit(g), 1, "}\n")))
  }
}
