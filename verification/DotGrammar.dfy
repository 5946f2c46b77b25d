/** The grammar of the dialect as functions on the remaining input
    (crates/attractor-dot/src/parser.rs:73-281, 390-446). */
module DotGrammar {
  import opened Wrappers
  import opened DotAst
  import opened DotLex

  /** Alternatives in order: string, boolean, duration, float, integer. */
  function AttrValue(s: string): (r: Parsed<Value>)
    ensures r.Ok? ==> |r.rest| < |s|
    ensures !r.Cut?
  {
    var quoted := QuotedString(s);
    if quoted.Ok? then Ok(Str(quoted.value), quoted.rest)
    else if BooleanValue(s).Ok? then BooleanValue(s)
    else if DurationValue(s).Ok? then DurationValue(s)
    else if FloatValue(s).Ok? then FloatValue(s)
    else IntegerValue(s)
  }

  /** `key = value` */
  function Attr(s: string): (r: Parsed<(string, Value)>)
    ensures r.Ok? ==> |r.rest| < |s|
    ensures !r.Cut?
  {
    var (key, rest) :- QualifiedId(s);
    var rest1 := SkipWs(rest);
    if rest1 != "" && rest1[0] == '=' then
      var (value, rest2) :- AttrValue(SkipWs(rest1[1..]));
      Ok((key, value), rest2)
    else Backtrack
  }

  /** Drops one character when it is `c`. */
  function SkipChar(s: string, c: char): (r: string)
    ensures |r| <= |s|
  {
    if s != "" && s[0] == c then s[1..] else s
  }

  /** Where the next attribute may start: after blanks and one `,` or `;`. */
  function SkipSeparator(s: string): (r: string)
    ensures |r| <= |s|
  {
    var s1 := SkipWs(s);
    SkipWs(if s1 != "" && (s1[0] == ',' || s1[0] == ';') then s1[1..] else s1)
  }

  /** The attributes after the first one, and the input where they end. */
  function AttrsFrom(acc: Attrs, s: string): (r: (Attrs, string))
    ensures |r.1| <= |s|
    decreases |s|
  {
    var s1 := SkipSeparator(s);
    match Attr(s1)
    case Ok(kv, rest) => AttrsFrom(acc[kv.0 := kv.1], rest)
    case _ => (acc, s1)
  }

  /** The attributes of a block; a repeated key keeps its last value. */
  function AttrsOf(s: string): (r: (Attrs, string))
    ensures |r.1| <= |s|
  {
    match Attr(s)
    case Ok(kv, rest) => AttrsFrom(map[kv.0 := kv.1], rest)
    case _ => (map[], s)
  }

  /** `'[' attr (','|';')? attr ... ']'` */
  function AttrBlock(s: string): (r: Parsed<Attrs>)
    ensures r.Ok? ==> |r.rest| < |s|
    ensures !r.Cut?
  {
    if s != "" && s[0] == '[' then
      var attrs := AttrsOf(SkipWs(s[1..]));
      var rest := SkipWs(attrs.1);
      if rest != "" && rest[0] == ']' then Ok(attrs.0, rest[1..]) else Backtrack
    else Backtrack
  }

  /** An attribute block that may be missing. */
  function OptionalBlock(s: string): (r: (Attrs, string))
    ensures |r.1| <= |s|
  {
    match AttrBlock(s)
    case Ok(attrs, rest) => (attrs, rest)
    case _ => (map[], s)
  }

  /** Blanks, then an optional `;`. */
  function EndStatement(s: string): (r: string)
    ensures |r| <= |s|
  {
    SkipChar(SkipWs(s), ';')
  }

  /** `keyword '[' ... ']' ';'?` */
  function KeywordBlock(s: string, keyword: string): (r: Parsed<Attrs>)
    ensures r.Ok? ==> |r.rest| < |s|
    ensures !r.Cut?
  {
    if keyword <= s then
      var (attrs, rest) :- AttrBlock(SkipWs(s[|keyword|..]));
      Ok(attrs, EndStatement(rest))
    else Backtrack
  }

  /** The targets after the first `->`, each behind one more `->`. */
  function ChainFrom(s: string): (r: Parsed<seq<string>>)
    ensures r.Ok? ==> |r.rest| <= |s|
    ensures !r.Cut?
    decreases |s|
  {
    var s1 := SkipWs(s);
    if "->" <= s1 then
      var (id, rest) :- Identifier(SkipWs(s1[2..]));
      var (more, rest1) :- ChainFrom(rest);
      Ok([id] + more, rest1)
    else Ok([], s1)
  }

  /** An edge chain after its first node and `->`. */
  function EdgeRest(first: string, s: string): (r: Parsed<Statement>)
    ensures r.Ok? ==> |r.rest| <= |s|
    ensures !r.Cut?
  {
    var (second, rest) :- Identifier(SkipWs(s));
    var (more, rest1) :- ChainFrom(rest);
    var block := OptionalBlock(SkipWs(rest1));
    Ok(Edge([first, second] + more, block.0), EndStatement(block.1))
  }

  /** A node, an edge chain or a bare `key = value`; `--` ends the parse. */
  function NodeOrEdge(s: string): (r: Parsed<Statement>)
    ensures r.Ok? ==> |r.rest| < |s|
  {
    var (first, rest) :- Identifier(s);
    var s1 := SkipWs(rest);
    if "->" <= s1 then EdgeRest(first, s1[2..])
    else if "--" <= s1 then Cut
    else
      var block := OptionalBlock(s1);
      var s2 := SkipWs(block.1);
      if block.0 != map[] then Ok(Node(first, block.0), SkipChar(s2, ';'))
      else if s2 != "" && s2[0] == '=' then
        var (value, rest1) :- AttrValue(SkipWs(s2[1..]));
        Ok(GraphAttrDecl(first, value), EndStatement(rest1))
      else Ok(Node(first, map[]), SkipChar(s2, ';'))
  }

  /** An identifier that may be missing. */
  function OptionalName(s: string): (r: (Option<string>, string))
    ensures |r.1| <= |s|
  {
    match Identifier(s)
    case Ok(id, rest) => (Some(id), rest)
    case _ => (None, s)
  }

  /** `subgraph name? '{' statements '}' ';'?` */
  function SubgraphStmt(s: string): (r: Parsed<Statement>)
    ensures r.Ok? ==> |r.rest| < |s|
    decreases |s|, 0
  {
    if "subgraph" <= s then
      var name := OptionalName(SkipWs(s[8..]));
      var s1 := SkipWs(name.1);
      if s1 != "" && s1[0] == '{' then
        var (body, rest) :- Statements(SkipWs(s1[1..]));
        var s2 := SkipWs(rest);
        if s2 != "" && s2[0] == '}' then Ok(Subgraph(name.0, body), EndStatement(s2[1..]))
        else Backtrack
      else Backtrack
    else Backtrack
  }

  /** Alternatives in order; a cut is not recovered from. */
  function OneStatement(s: string): (r: Parsed<Statement>)
    ensures r.Ok? ==> |r.rest| < |s|
    decreases |s|, 1
  {
    var s1 := SkipWs(s);
    var graph, node, edge := KeywordBlock(s1, "graph"), KeywordBlock(s1, "node"), KeywordBlock(s1, "edge");
    if graph.Ok? then Ok(GraphAttrs(graph.value), graph.rest)
    else if node.Ok? then Ok(NodeDefaults(node.value), node.rest)
    else if edge.Ok? then Ok(EdgeDefaults(edge.value), edge.rest)
    else
      match SubgraphStmt(s1)
      case Ok(st, rest) => Ok(st, rest)
      case Cut => Cut
      case Backtrack => NodeOrEdge(s1)
  }

  /** Statements up to the end of input or a `}`. */
  function Statements(s: string): (r: Parsed<seq<Statement>>)
    ensures r.Ok? ==> |r.rest| <= |s|
    decreases |s|, 2
  {
    var s1 := SkipWs(s);
    if s1 == "" || s1[0] == '}' then Ok([], s1)
    else
      var (st, rest) :- OneStatement(s1);
      var (more, rest1) :- Statements(rest);
      Ok([st] + more, rest1)
  }

  /** `digraph name '{' statements '}'`. Input that does not start with the
      keyword is refused, `strict` and undirected graphs among it. */
  function Digraph(s: string): Parsed<(string, seq<Statement>)> {
    var s1 := SkipWs(s);
    if "digraph" <= s1 then
      var (name, rest) :- Identifier(SkipWs(s1[7..]));
      var s2 := SkipWs(rest);
      if s2 != "" && s2[0] == '{' then
        var (body, rest1) :- Statements(SkipWs(s2[1..]));
        var s3 := SkipWs(rest1);
        if s3 != "" && s3[0] == '}' then Ok((name, body), SkipWs(s3[1..])) else Backtrack
      else Backtrack
    else Backtrack
  }
}
