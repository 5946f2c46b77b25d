/** Graph descriptions as people write them: every layout, separator, escape,
    unit and optional part that the dialect allows, the text each choice makes,
    and what it means. Nothing here knows the parser
    (crates/attractor-dot/src/parser.rs:73-281, parser_primitives.rs). */
module DotForms {
  import opened Wrappers
  import opened DotAst

  // ---------------------------------------------------------------------
  // Characters
  // ---------------------------------------------------------------------

  predicate Blank(c: char) { c == ' ' || c == '\t' || c == '\r' || c == '\n' }
  predicate Letter(c: char) { 'a' <= c <= 'z' || 'A' <= c <= 'Z' || c == '_' }
  predicate Figure(c: char) { '0' <= c <= '9' }

  /** Text that may stand between two parts. */
  ghost predicate Gap(s: string) { forall i | 0 <= i < |s| :: Blank(s[i]) }

  ghost predicate Figures(s: string) { s != "" && forall i | 0 <= i < |s| :: Figure(s[i]) }

  ghost predicate Name(s: string) {
    s != "" && Letter(s[0]) && forall i | 0 <= i < |s| :: Letter(s[i]) || Figure(s[i])
  }

  /** A name ends before this text. */
  predicate NameStops(more: string) { more == "" || !(Letter(more[0]) || Figure(more[0])) }

  // ---------------------------------------------------------------------
  // Values
  // ---------------------------------------------------------------------

  datatype Piece = Plain(c: char) | Escaped(c: char)

  datatype TimeUnit = Millis | Seconds | Minutes | Hours | Days

  datatype ValueForm =
    | Quote(pieces: seq<Piece>)
    | Truth(b: bool)
    | Time(figures: string, unit: TimeUnit)
    | Real(sign: string, whole: string, fraction: string)
    | Count(sign: string, figures: string)

  function PiecesText(pieces: seq<Piece>, more: string): string {
    if pieces == [] then more
    else (match pieces[0] case Plain(c) => [c] case Escaped(c) => ['\\', c]) + PiecesText(pieces[1..], more)
  }

  /** `\n`, `\t`, `\\` and `\"` stand for one character; before any other the
      backslash stays. */
  function PiecesMean(pieces: seq<Piece>): string {
    if pieces == [] then ""
    else
      (match pieces[0]
       case Plain(c) => [c]
       case Escaped(c) => if c == 'n' then "\n" else if c == 't' then "\t" else if c == '\\' || c == '"' then [c] else ['\\', c])
      + PiecesMean(pieces[1..])
  }

  function UnitText(unit: TimeUnit): string {
    match unit case Millis => "ms" case Seconds => "s" case Minutes => "m" case Hours => "h" case Days => "d"
  }

  const TWO_TO_64: nat := 18446744073709551616

  /** Milliseconds. Minutes, hours and days become seconds modulo 2^64. */
  function TimeMeans(n: nat, unit: TimeUnit): nat {
    match unit
    case Millis => n
    case Seconds => 1000 * n
    case Minutes => 1000 * (60 * n % TWO_TO_64)
    case Hours => 1000 * (3600 * n % TWO_TO_64)
    case Days => 1000 * (86400 * n % TWO_TO_64)
  }

  /** The number that figures denote, most significant first. */
  function Number(figures: string): nat
    requires forall i | 0 <= i < |figures| :: Figure(figures[i])
    decreases |figures|
  {
    if figures == "" then 0
    else
      var last := figures[|figures| - 1];
      assert Figure(last);
      10 * Number(figures[..|figures| - 1]) + (last - '0') as int
  }

  function ValueText(v: ValueForm, more: string): string {
    match v
    case Quote(pieces) => "\"" + PiecesText(pieces, "\"" + more)
    case Truth(b) => (if b then "true" else "false") + more
    case Time(figures, unit) => figures + (UnitText(unit) + more)
    case Real(sign, whole, fraction) => sign + (whole + ("." + (fraction + more)))
    case Count(sign, figures) => sign + (figures + more)
  }

  predicate Sign(s: string) { s == "" || s == "-" || s == "+" }

  function Signed(sign: string, n: nat): int { if sign == "-" then 0 - n else n }

  predicate StartsIn(more: string, chars: string) { more != "" && more[0] in chars }

  ghost predicate Written(v: ValueForm) {
    match v
    case Quote(pieces) => forall p | p in pieces && p.Plain? :: p.c != '"' && p.c != '\\'
    case Truth(_) => true
    case Time(figures, unit) => Figures(figures) && Number(figures) < TWO_TO_64
    case Real(sign, whole, fraction) => Sign(sign) && Figures(whole) && Figures(fraction)
    case Count(sign, figures) =>
      Sign(sign) && Figures(figures) && 0 - TWO_TO_64 <= 2 * Signed(sign, Number(figures)) < TWO_TO_64
  }

  /** Nothing that follows reads on. */
  predicate ValueStops(v: ValueForm, more: string) {
    match v
    case Quote(_) => true
    case Truth(_) => true
    case Time(_, unit) => !(unit.Minutes? && StartsIn(more, "s"))
    case Real(_, _, _) => !StartsIn(more, "0123456789")
    case Count(sign, _) =>
      && !StartsIn(more, "0123456789") && !(|more| >= 2 && more[0] == '.' && Figure(more[1]))
      && !(sign == "" && StartsIn(more, "smhd"))
  }

  ghost predicate ValueOk(v: ValueForm, more: string) { Written(v) && ValueStops(v, more) }

  ghost function ValueMeans(v: ValueForm): Value
    requires Written(v)
  {
    match v
    case Quote(pieces) => Str(PiecesMean(pieces))
    case Truth(b) => Boolean(b)
    case Time(figures, unit) => Duration(TimeMeans(Number(figures), unit))
    case Real(sign, whole, fraction) => Float(sign + (whole + ("." + fraction)))
    case Count(sign, figures) => Integer(Signed(sign, Number(figures)))
  }

  // ---------------------------------------------------------------------
  // Attribute blocks
  // ---------------------------------------------------------------------

  /** A dotted key, blanks and a value, then blanks around at most one separator. */
  datatype Item = Item(
    key: string, dotted: seq<string>, g1: string, g2: string, value: ValueForm, g3: string, sep: string, g4: string)

  function Dotted(parts: seq<string>, more: string): string {
    if parts == [] then more else "." + (parts[0] + Dotted(parts[1..], more))
  }

  function KeyOf(it: Item): string { it.key + Dotted(it.dotted, "") }

  function AfterValue(it: Item, more: string): string { it.g3 + (it.sep + (it.g4 + more)) }

  function ItemText(it: Item, more: string): string {
    it.key + Dotted(it.dotted, it.g1 + ("=" + (it.g2 + ValueText(it.value, AfterValue(it, more)))))
  }

  ghost predicate ItemOk(it: Item, more: string) {
    && Name(it.key) && (forall part | part in it.dotted :: Name(part))
    && Gap(it.g1) && Gap(it.g2) && Gap(it.g3) && Gap(it.g4) && (it.sep == "" || it.sep == "," || it.sep == ";")
    && ValueOk(it.value, AfterValue(it, more))
  }

  function ItemsText(items: seq<Item>, more: string): string {
    if items == [] then more else ItemText(items[0], ItemsText(items[1..], more))
  }

  ghost predicate ItemsOk(items: seq<Item>, more: string) {
    items != [] ==> ItemOk(items[0], ItemsText(items[1..], more)) && ItemsOk(items[1..], more)
  }

  /** The last item with a key gives its value. */
  ghost predicate ItemsMean(attrs: Attrs, items: seq<Item>) {
    && (forall k :: k in attrs <==> exists i :: 0 <= i < |items| && KeyOf(items[i]) == k)
    && forall i | 0 <= i < |items| && LastWithKey(items, i) ::
         Written(items[i].value) && attrs[KeyOf(items[i])] == ValueMeans(items[i].value)
  }

  predicate LastWithKey(items: seq<Item>, i: nat) {
    i < |items| && forall j | i < j < |items| :: KeyOf(items[j]) != KeyOf(items[i])
  }

  datatype Block = Block(open: string, items: seq<Item>)

  function BlockText(b: Block, more: string): string { "[" + (b.open + ItemsText(b.items, "]" + more)) }

  ghost predicate BlockOk(b: Block, more: string) { Gap(b.open) && ItemsOk(b.items, "]" + more) }

  // ---------------------------------------------------------------------
  // Statements
  // ---------------------------------------------------------------------

  /** Blanks, then perhaps a `;`. */
  datatype End = End(gap: string, semi: bool)

  datatype Hop = Hop(before: string, after: string, target: string)

  /** A block without items. */
  datatype Hollow = Hollow(gap: string, open: string)

  datatype Kind = OfGraph | OfNode | OfEdge

  datatype Form =
    | Settings(kind: Kind, gap: string, block: Block, end: End)
    | NodeForm(id: string, gap: string, attrs: Option<Block>, end: End)
    | EdgeForm(first: string, hops: seq<Hop>, gap: string, attrs: Option<Block>, end: End)
    | Bare(key: string, hollow: Option<Hollow>, g1: string, g2: string, value: ValueForm, end: End)
    | Nested(g1: string, name: Option<string>, g2: string, lines: seq<Line>, g3: string, end: End)

  /** A statement and the blanks before it. */
  datatype Line = Line(lead: string, form: Form)

  function EndText(end: End, more: string): string { end.gap + ((if end.semi then ";" else "") + more) }

  function TailText(gap: string, attrs: Option<Block>, end: End, more: string): string {
    gap + if attrs.Some? then BlockText(attrs.value, EndText(end, more)) else EndText(end, more)
  }

  ghost predicate TailOk(gap: string, attrs: Option<Block>, end: End, more: string) {
    Gap(gap) && Gap(end.gap) && (attrs.Some? ==> BlockOk(attrs.value, EndText(end, more)))
  }

  function HollowText(hollow: Option<Hollow>, more: string): string {
    match hollow
    case None => more
    case Some(h) => h.gap + ("[" + (h.open + ("]" + more)))
  }

  function HopsText(hops: seq<Hop>, more: string): string {
    if hops == [] then more
    else hops[0].before + ("->" + (hops[0].after + (hops[0].target + HopsText(hops[1..], more))))
  }

  ghost predicate HopsOk(hops: seq<Hop>, more: string) {
    hops != [] ==>
      && Gap(hops[0].before) && Gap(hops[0].after) && Name(hops[0].target)
      && NameStops(HopsText(hops[1..], more)) && HopsOk(hops[1..], more)
  }

  function Targets(hops: seq<Hop>): seq<string> { if hops == [] then [] else [hops[0].target] + Targets(hops[1..]) }

  function Keyword(kind: Kind): string { match kind case OfGraph => "graph" case OfNode => "node" case OfEdge => "edge" }

  function FormText(f: Form, more: string): string
    decreases f, 0
  {
    match f
    case Settings(kind, gap, block, end) => Keyword(kind) + (gap + BlockText(block, EndText(end, more)))
    case NodeForm(id, gap, attrs, end) => id + TailText(gap, attrs, end, more)
    case EdgeForm(first, hops, gap, attrs, end) => first + HopsText(hops, TailText(gap, attrs, end, more))
    case Bare(key, hollow, g1, g2, value, end) =>
      key + HollowText(hollow, g1 + ("=" + (g2 + ValueText(value, EndText(end, more)))))
    case Nested(g1, name, g2, lines, g3, end) =>
      "subgraph" + (g1 + ((if name.Some? then name.value else "")
                          + (g2 + ("{" + LinesText(lines, g3 + ("}" + EndText(end, more)))))))
  }

  function LinesText(lines: seq<Line>, more: string): string
    decreases lines, 1
  {
    if lines == [] then more else lines[0].lead + FormText(lines[0].form, LinesText(lines[1..], more))
  }

  /** After blanks a name, and after more blanks a brace. */
  ghost predicate NamedBrace(s: string) {
    exists g1, name, g2, more :: NamedBraceIs(s, g1, name, g2, more)
  }

  ghost predicate NamedBraceIs(s: string, g1: string, name: string, g2: string, more: string) {
    Gap(g1) && Name(name) && Gap(g2) && s == g1 + (name + (g2 + ("{" + more)))
  }

  /** Names and values stop where they are written to. Three words are no names
      everywhere: `graph`, `node` and `edge` in front of a block, and `subgraph`
      where a name and a brace come next. */
  ghost predicate FormOk(f: Form, more: string)
    decreases f, 0
  {
    match f
    case Settings(_, gap, block, end) => Gap(gap) && Gap(end.gap) && BlockOk(block, EndText(end, more))
    case NodeForm(id, gap, attrs, end) =>
      && Name(id) && TailOk(gap, attrs, end, more) && NameStops(TailText(gap, attrs, end, more))
      && (attrs.Some? ==> !Reserved(id))
      && (id == "subgraph" && attrs.None? && !end.semi ==> !NamedBrace(TailText(gap, attrs, end, more)))
    case EdgeForm(first, hops, gap, attrs, end) =>
      && Name(first) && hops != [] && TailOk(gap, attrs, end, more) && HopsOk(hops, TailText(gap, attrs, end, more))
    case Bare(key, hollow, g1, g2, value, end) =>
      && Name(key) && Gap(g1) && Gap(g2) && Gap(end.gap) && ValueOk(value, EndText(end, more))
      && (hollow.Some? ==> Gap(hollow.value.gap) && Gap(hollow.value.open) && !Reserved(key))
    case Nested(g1, name, g2, lines, g3, end) =>
      && Gap(g1) && Gap(g2) && Gap(g3) && Gap(end.gap) && (name.Some? ==> Name(name.value))
      && LinesOk(lines, g3 + ("}" + EndText(end, more)))
  }

  predicate Reserved(id: string) { id == "graph" || id == "node" || id == "edge" }

  ghost predicate LinesOk(lines: seq<Line>, more: string)
    decreases lines, 1
  {
    lines != [] ==>
      && Gap(lines[0].lead) && FormOk(lines[0].form, LinesText(lines[1..], more)) && LinesOk(lines[1..], more)
  }

  // ---------------------------------------------------------------------
  // What they mean
  // ---------------------------------------------------------------------

  ghost predicate AttrsMean(attrs: Attrs, block: Option<Block>) {
    if block.Some? then ItemsMean(attrs, block.value.items) else attrs == map[]
  }

  ghost predicate FormMeans(st: Statement, f: Form)
    decreases f, 0
  {
    match f
    case Settings(kind, _, block, _) =>
      (match kind case OfGraph => st.GraphAttrs? case OfNode => st.NodeDefaults? case OfEdge => st.EdgeDefaults?)
      && ItemsMean(st.attrs, block.items)
    case NodeForm(id, _, attrs, _) => st.Node? && st.id == id && AttrsMean(st.attrs, attrs)
    case EdgeForm(first, hops, _, attrs, _) => st.Edge? && st.chain == [first] + Targets(hops) && AttrsMean(st.attrs, attrs)
    case Bare(key, _, _, _, value, _) => Written(value) && st == GraphAttrDecl(key, ValueMeans(value))
    case Nested(_, name, _, lines, _, _) => st.Subgraph? && st.name == name && LinesMean(st.body, lines)
  }

  ghost predicate LinesMean(stmts: seq<Statement>, lines: seq<Line>)
    decreases lines, 1
  {
    if lines == [] then stmts == []
    else stmts != [] && FormMeans(stmts[0], lines[0].form) && LinesMean(stmts[1..], lines[1..])
  }

  // ---------------------------------------------------------------------
  // A whole description
  // ---------------------------------------------------------------------

  /** What follows the closing brace is not looked at. */
  datatype Document = Document(
    lead: string, g1: string, name: string, g2: string, lines: seq<Line>, g3: string, more: string)

  function DocumentText(d: Document): string {
    d.lead + ("digraph" + (d.g1 + (d.name + (d.g2 + ("{" + LinesText(d.lines, d.g3 + ("}" + d.more)))))))
  }

  ghost predicate DocumentOk(d: Document) {
    Gap(d.lead) && Gap(d.g1) && Name(d.name) && Gap(d.g2) && Gap(d.g3) && LinesOk(d.lines, d.g3 + ("}" + d.more))
  }
}
