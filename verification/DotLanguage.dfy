/** The parser reads nothing else: whatever it accepts is a description in some
    layout. With `DotLayout` this says exactly which texts `parse` accepts. */
module DotLanguage {
  import opened Wrappers
  import opened DotAst
  import opened DotLex
  import opened DotGrammar
  import opened DotMerge
  import opened DotComments
  import opened DotTheorems
  import opened DotLexemes
  import opened DotReadBack
  import opened DotTextRoundTrip
  import opened DotForms
  import opened DotLayout

  // ---------------------------------------------------------------------
  // Values
  // ---------------------------------------------------------------------

  /** A text from its first characters on. */
  lemma Rejoin(s: string, n: nat)
    requires n <= |s|
    ensures s == s[..n] + s[n..]
  {
  }

  lemma Prefix(s: string, w: string)
    requires w <= s
    ensures s == w + s[|w|..]
  {
  }

  lemma {:induction false} PiecesOf(s: string) returns (pieces: seq<Piece>)
    requires QuotedBody(s).Ok?
    ensures s == PiecesText(pieces, "\"" + QuotedBody(s).rest)
    ensures forall p | p in pieces && p.Plain? :: p.c != '"' && p.c != '\\'
    decreases |s|
  {
    if s[0] == '"' {
      pieces := [];
      Rejoin(s, 1);
    } else if s[0] == '\\' {
      var more := PiecesOf(s[2..]);
      pieces := [Escaped(s[1])] + more;
      assert s == ['\\', s[1]] + s[2..];
    } else {
      var more := PiecesOf(s[1..]);
      pieces := [Plain(s[0])] + more;
      Rejoin(s, 1);
    }
  }

  /** The figures at the start. */
  lemma FiguresOf(s: string) returns (figures: string)
    ensures figures == s[..Span(s, IsDigit)] && s == figures + s[|figures|..] && |figures| == Span(s, IsDigit)
    ensures figures != "" ==> Figures(figures)
    ensures forall i | 0 <= i < |figures| :: Figure(figures[i])
    ensures !StartsIn(s[|figures|..], "0123456789")
    ensures All(figures, IsDigit) && Numeral(figures) == Number(figures)
  {
    figures := s[..Span(s, IsDigit)];
    NumberIs(figures);
    var more := s[|figures|..];
    assert more != "" ==> more[0] == s[|figures|] && !IsDigit(more[0]);
    DigitIn(more);
  }

  lemma UnitOf(s: string, n: nat) returns (unit: TimeUnit)
    requires Unit(s, n).Some?
    ensures Unit(s, n).value.0 == |UnitText(unit)| <= |s|
    ensures s == UnitText(unit) + s[|UnitText(unit)|..]
    ensures !(unit.Minutes? && StartsIn(s[|UnitText(unit)|..], "s"))
  {
    unit := if "ms" <= s then Millis else if "s" <= s then Seconds else if "m" <= s then Minutes else if "h" <= s then Hours else Days;
    if |s| >= 2 && s[0] == 'm' && s[1] == 's' { assert s[..2] == "ms"; }
  }

  lemma TimeOf(s: string) returns (v: ValueForm)
    requires DurationValue(s).Ok?
    ensures v.Time? && ValueOk(v, DurationValue(s).rest) && s == ValueText(v, DurationValue(s).rest)
  {
    hide Unit, Span;
    var figures := FiguresOf(s);
    var after := s[|figures|..];
    var unit := UnitOf(after, Numeral(figures));
    v := Time(figures, unit);
    assert DurationValue(s).rest == after[|UnitText(unit)|..];
  }

  lemma SignOf(s: string) returns (sign: string)
    ensures DotForms.Sign(sign) && |sign| == DotLex.Sign(s) && s == sign + s[|sign|..] && sign == s[..|sign|]
    ensures sign == "-" <==> DotLex.Sign(s) == 1 && s[0] == '-'
  {
    sign := s[..DotLex.Sign(s)];
  }

  /** A float goes as far as its figures do. */
  lemma FloatEnds(s: string)
    requires FloatLen(s) > 0
    ensures !StartsIn(s[FloatLen(s)..], "0123456789")
  {
    hide Span;
    var whole := DotLex.Sign(s) + Span(s[DotLex.Sign(s)..], IsDigit);
    var fraction := Span(s[whole + 1..], IsDigit);
    var n := FloatLen(s);
    assert n < |s| ==> s[n] == s[whole + 1..][fraction] && !IsDigit(s[n]);
    DigitIn(s[n..]);
  }

  lemma DigitIn(s: string)
    ensures StartsIn(s, "0123456789") <==> StartsWith(s, IsDigit)
  {
    assert forall c :: c in "0123456789" ==> IsDigit(c);
  }

  lemma FloatLexeme(lexeme: string) returns (sign: string, whole: string, fraction: string)
    requires lexeme != "" && FloatLen(lexeme) == |lexeme|
    ensures Written(Real(sign, whole, fraction)) && whole != "" && lexeme == sign + (whole + ("." + fraction))
  {
    hide FloatLen, Span;
    sign, whole, fraction := FloatParts(lexeme);
  }

  lemma RealOf(s: string) returns (v: ValueForm)
    requires FloatValue(s).Ok?
    ensures v.Real? && ValueOk(v, FloatValue(s).rest) && s == ValueText(v, FloatValue(s).rest)
  {
    hide FloatLen, Span, Written;
    var n := FloatLen(s);
    FloatEnds(s);
    FloatPrefix(s);
    var sign, whole, fraction := FloatLexeme(s[..n]);
    v := Real(sign, whole, fraction);
    FloatRegroup(sign, whole, fraction, s[n..]);
    Rejoin(s, n);
  }

  lemma CountParts(s: string) returns (sign: string, figures: string, rest: string)
    requires IntegerValue(s).Ok?
    ensures rest == IntegerValue(s).rest && s == sign + (figures + rest) && Written(Count(sign, figures))
    ensures |sign| == DotLex.Sign(s) && |figures| == Span(s[|sign|..], IsDigit) && figures == s[|sign|..][..|figures|]
    ensures Figures(figures) && All(figures, IsDigit) && Numeral(figures) <= U64_MAX && !StartsIn(rest, "0123456789")
  {
    hide Span, Numeral, Number;
    sign := SignOf(s);
    figures := FiguresOf(s[|sign|..]);
    rest := s[|sign|..][|figures|..];
  }

  lemma CountOf(s: string) returns (v: ValueForm)
    requires IntegerValue(s).Ok? && !DurationValue(s).Ok? && FloatLen(s) == 0
    ensures v.Count? && ValueOk(v, IntegerValue(s).rest) && s == ValueText(v, IntegerValue(s).rest)
  {
    hide Span, FloatLen, DurationValue, IntegerValue, Written, Numeral;
    var sign, figures, rest := CountParts(s);
    v := Count(sign, figures);
    NoPoint(s, sign, figures, rest);
    if sign == "" { NoUnitAhead(s, figures, rest); }
  }

  /** A point behind an integer is not followed by a figure. */
  lemma NoPoint(s: string, sign: string, figures: string, rest: string)
    requires s == sign + (figures + rest) && |sign| == DotLex.Sign(s) && Figures(figures) && |figures| == Span(s[|sign|..], IsDigit)
    requires FloatLen(s) == 0
    ensures !(|rest| >= 2 && rest[0] == '.' && Figure(rest[1]))
  {
    if |rest| >= 2 && rest[0] == '.' {
      assert s[|sign| + |figures|] == '.' && s[|sign| + |figures| + 1..] == rest[1..];
    }
  }

  lemma UnitStarts(s: string, n: nat)
    ensures StartsIn(s, "smhd") ==> Unit(s, n).Some?
  {
    if s != "" { assert s[..1] == [s[0]]; }
  }

  lemma NoUnitAhead(s: string, figures: string, rest: string)
    requires s == "" + (figures + rest) && figures != "" && |figures| == Span(s, IsDigit) && s[..|figures|] == figures
    requires All(figures, IsDigit) && Numeral(figures) <= U64_MAX
    requires !DurationValue(s).Ok?
    ensures !StartsIn(rest, "smhd")
  {
    hide Span;
    assert s[|figures|..] == rest;
    UnitStarts(rest, Numeral(figures));
  }

  /** Every value that is read is one of the spellings. */
  lemma ValueOf(s: string) returns (v: ValueForm)
    requires AttrValue(s).Ok?
    ensures ValueOk(v, AttrValue(s).rest) && s == ValueText(v, AttrValue(s).rest)
  {
    hide QuotedBody, DurationValue, FloatLen, IntegerValue, PiecesText, Number, Numeral;
    if QuotedString(s).Ok? {
      var pieces := PiecesOf(s[1..]);
      v := Quote(pieces);
      Rejoin(s, 1);
    } else if BooleanValue(s).Ok? {
      v := Truth("true" <= s);
      Rejoin(s, if "true" <= s then 4 else 5);
    } else if DurationValue(s).Ok? {
      v := TimeOf(s);
    } else if FloatValue(s).Ok? {
      v := RealOf(s);
    } else {
      NoFloat(s);
      v := CountOf(s);
    }
  }

  lemma NoFloat(s: string)
    requires !FloatValue(s).Ok?
    ensures FloatLen(s) == 0
  {
    hide FloatLen;
  }

  // ---------------------------------------------------------------------
  // Blocks
  // ---------------------------------------------------------------------

  lemma IdentOf(s: string)
    requires Identifier(s).Ok?
    ensures var r := Identifier(s); Name(r.value) && NameStops(r.rest) && s == r.value + r.rest
  {
    IdentSound(s);
    NameIs(Identifier(s).value);
    NameIs(Identifier(s).rest);
  }

  lemma {:induction false} DottedOf(s: string) returns (parts: seq<string>)
    ensures (forall part | part in parts :: Name(part)) && s == Dotted(parts, s[DottedLen(s)..])
    decreases |s|
  {
    hide DottedLen, IdentLen;
    DottedUnfold(s);
    if s != "" && s[0] == '.' && IdentLen(s[1..]) > 0 {
      var n := IdentLen(s[1..]);
      var more := DottedOf(s[1 + n..]);
      IdentLenIs(s[1..]);
      parts := [s[1..][..n]] + more;
      assert s == "." + (s[1..][..n] + s[1 + n..]);
      assert s[1 + n..][DottedLen(s[1 + n..])..] == s[DottedLen(s)..];
    } else {
      parts := [];
    }
  }

  lemma IdentLenIs(s: string)
    ensures IdentLen(s) > 0 ==> Name(s[..IdentLen(s)])
  {
  }

  lemma KeyOfText(s: string) returns (key: string, dotted: seq<string>)
    requires QualifiedId(s).Ok?
    ensures Name(key) && (forall part | part in dotted :: Name(part)) && s == key + Dotted(dotted, QualifiedId(s).rest)
  {
    hide DottedLen, IdentLen;
    var n := IdentLen(s);
    IdentLenIs(s);
    key := s[..n];
    dotted := DottedOf(s[n..]);
    Rejoin(s, n);
    assert s[n..][DottedLen(s[n..])..] == QualifiedId(s).rest;
  }

  lemma AttrIs(s: string, rest: string, after: string)
    requires Attr(s).Ok? && QualifiedId(s).Ok? && rest == QualifiedId(s).rest && SkipWs(rest) == "=" + after
    ensures AttrValue(SkipWs(after)).Ok? && AttrValue(SkipWs(after)).rest == Attr(s).rest
  {
    hide QualifiedId, AttrValue, SkipWs;
    assert ("=" + after)[1..] == after;
  }

  /** An attribute that is read, up to its value. */
  lemma AttrOf(s: string) returns (it: Item)
    requires Attr(s).Ok?
    ensures it.g3 == it.sep == it.g4 == ""
    ensures s == it.key + Dotted(it.dotted, it.g1 + ("=" + (it.g2 + ValueText(it.value, Attr(s).rest))))
    ensures Name(it.key) && (forall part | part in it.dotted :: Name(part)) && Gap(it.g1) && Gap(it.g2)
    ensures ValueOk(it.value, Attr(s).rest)
  {
    hide QualifiedId, AttrValue, SkipWs, ValueText, ValueOk, Dotted, Name;
    var key, dotted := KeyOfText(s);
    var rest := QualifiedId(s).rest;
    var after := SkipWs(rest)[1..];
    Head(SkipWs(rest), "=");
    var v := ValueOf(SkipWs(after));
    it := Item(key, dotted, Blanks(rest), Blanks(after), v, "", "", "");
    AttrIs(s, rest, after);
  }

  /** What stands between an attribute and the next. */
  lemma SeparatorOf(s: string) returns (g3: string, sep: string, g4: string)
    ensures Gap(g3) && Gap(g4) && (sep == "" || sep == "," || sep == ";")
    ensures s == g3 + (sep + (g4 + SkipSeparator(s)))
  {
    hide SkipWs, Gap;
    var s1 := SkipWs(s);
    g3 := Blanks(s);
    if s1 != "" && (s1[0] == ',' || s1[0] == ';') {
      sep := if s1[0] == ',' then "," else ";";
      Head(s1, sep);
      g4 := Blanks(s1[1..]);
    } else {
      sep, g4 := "", Blanks(s1);
      assert sep + (g4 + SkipWs(s1)) == s1;
    }
  }

  lemma {:induction false} ItemsOf(acc: Attrs, s: string) returns (g3: string, sep: string, g4: string, items: seq<Item>)
    requires AttrsFrom(acc, s).1 != "" && AttrsFrom(acc, s).1[0] == ']'
    ensures Gap(g3) && Gap(g4) && (sep == "" || sep == "," || sep == ";")
    ensures s == g3 + (sep + (g4 + ItemsText(items, AttrsFrom(acc, s).1))) && ItemsOk(items, AttrsFrom(acc, s).1)
    decreases |s|, 0
  {
    hide Attr, SkipSeparator, ValueText, ValueOk, Dotted, Name;
    var s1 := SkipSeparator(s);
    g3, sep, g4 := SeparatorOf(s);
    if Attr(s1).Ok? {
      var kv := Attr(s1).value;
      items := ItemCons(acc[kv.0 := kv.1], s1);
    } else {
      items := [];
    }
  }

  /** An attribute and those behind it. */
  lemma {:induction false} ItemCons(acc: Attrs, s: string) returns (items: seq<Item>)
    requires Attr(s).Ok?
    requires var r := AttrsFrom(acc, Attr(s).rest).1; r != "" && r[0] == ']'
    ensures s == ItemsText(items, AttrsFrom(acc, Attr(s).rest).1) && ItemsOk(items, AttrsFrom(acc, Attr(s).rest).1)
    decreases |Attr(s).rest|, 1
  {
    hide Attr, SkipSeparator, ValueText, ValueOk, Dotted, Name, AttrsFrom;
    var it := AttrOf(s);
    var end := AttrsFrom(acc, Attr(s).rest).1;
    var g3, sep, g4, more := ItemsOf(acc, Attr(s).rest);
    it := it.(g3 := g3, sep := sep, g4 := g4);
    items := [it] + more;
    assert items[1..] == more;
    assert AfterValue(it, ItemsText(more, end)) == Attr(s).rest;
  }

  /** Every block that is read is one. */
  lemma BlockOf(s: string) returns (b: Block)
    requires AttrBlock(s).Ok?
    ensures s == BlockText(b, AttrBlock(s).rest) && BlockOk(b, AttrBlock(s).rest)
  {
    hide Attr, AttrsFrom, ItemsText, ItemsOk, SkipWs, Gap;
    var body := SkipWs(s[1..]);
    var end := AttrsOf(body).1;
    Head(s, "[");
    SkipWsTwice(s[1..]);
    BodyEnd(body);
    Head(end, "]");
    if Attr(body).Ok? {
      var kv := Attr(body).value;
      var items := ItemCons(map[kv.0 := kv.1], body);
      b := Block(Blanks(s[1..]), items);
    } else {
      b := Block(Blanks(s[1..]), []);
      NoItems(end);
    }
  }

  lemma NoItems(s: string)
    ensures ItemsText([], s) == s && ItemsOk([], s)
  {
  }

  /** Where the attributes end there are no blanks. */
  lemma BodyEnd(s: string)
    requires SkipWs(s) == s
    ensures SkipWs(AttrsOf(s).1) == AttrsOf(s).1
  {
    hide Attr, SkipWs;
    if Attr(s).Ok? { FromEnd(map[Attr(s).value.0 := Attr(s).value.1], Attr(s).rest); }
  }

  lemma {:induction false} FromEnd(acc: Attrs, s: string)
    ensures SkipWs(AttrsFrom(acc, s).1) == AttrsFrom(acc, s).1
    decreases |s|
  {
    hide Attr, SkipWs, SkipSeparator;
    var s1 := SkipSeparator(s);
    SeparatorEnd(s);
    if Attr(s1).Ok? { FromEnd(acc[Attr(s1).value.0 := Attr(s1).value.1], Attr(s1).rest); }
  }

  lemma SeparatorEnd(s: string)
    ensures SkipWs(SkipSeparator(s)) == SkipSeparator(s)
  {
    hide SkipWs;
    var s1 := SkipWs(s);
    SkipWsTwice(if s1 != "" && (s1[0] == ',' || s1[0] == ';') then s1[1..] else s1);
  }

  // ---------------------------------------------------------------------
  // Statements
  // ---------------------------------------------------------------------

  lemma EndOf(s: string) returns (end: End)
    ensures Gap(end.gap) && s == EndText(end, EndStatement(s))
  {
    hide SkipWs, Gap;
    var s1 := SkipWs(s);
    end := End(Blanks(s), s1 != "" && s1[0] == ';');
    if end.semi { Head(s1, ";"); } else { assert "" + s1 == s1; }
  }

  /** A block that may be missing, and the end. */
  lemma TailOf(tail: string) returns (gap: string, attrs: Option<Block>, end: End)
    ensures var block := OptionalBlock(SkipWs(tail));
      && tail == TailText(gap, attrs, end, EndStatement(block.1)) && TailOk(gap, attrs, end, EndStatement(block.1))
      && (attrs.Some? <==> AttrBlock(SkipWs(tail)).Ok?)
  {
    hide SkipWs, AttrBlock, BlockText, BlockOk, EndStatement, EndText;
    gap := Blanks(tail);
    var s := SkipWs(tail);
    end := EndOf(OptionalBlock(s).1);
    if AttrBlock(s).Ok? {
      var b := BlockOf(s);
      attrs := Some(b);
    } else {
      attrs := None;
    }
  }

  lemma SettingsOf(s: string, kind: Kind) returns (f: Form)
    requires KeywordBlock(s, Keyword(kind)).Ok?
    ensures f.Settings? && f.kind == kind
    ensures var rest := KeywordBlock(s, Keyword(kind)).rest; s == FormText(f, rest) && FormOk(f, rest)
  {
    hide SkipWs, AttrBlock, BlockText, BlockOk, EndStatement, EndText, Gap;
    var word := Keyword(kind);
    var tail := s[|word|..];
    Prefix(s, word);
    var b := BlockOf(SkipWs(tail));
    var end := EndOf(AttrBlock(SkipWs(tail)).rest);
    f := Settings(kind, Blanks(tail), b, end);
  }

  lemma NoHops(s: string)
    ensures HopsText([], s) == s && HopsOk([], s)
  {
  }

  lemma {:induction false} ChainOf(s: string) returns (hops: seq<Hop>, tail: string)
    requires ChainFrom(s).Ok?
    ensures s == HopsText(hops, tail) && HopsOk(hops, tail) && SkipWs(tail) == ChainFrom(s).rest
    ensures hops == [] ==> tail == s
    decreases |s|
  {
    hide SkipWs, Identifier, Name, NameStops, Gap, HopsText, HopsOk;
    if "->" <= SkipWs(s) {
      var before, after, target, rest := HopOf(s);
      var more;
      more, tail := ChainOf(rest);
      HopsPrepend(before, after, target, more, tail);
      hops := [Hop(before, after, target)] + more;
    } else {
      NoHops(s);
      hops, tail := [], s;
    }
  }

  /** One arrow and its target. */
  lemma HopOf(s: string) returns (before: string, after: string, target: string, rest: string)
    requires "->" <= SkipWs(s) && Identifier(SkipWs(SkipWs(s)[2..])).Ok?
    ensures Gap(before) && Gap(after) && Name(target) && NameStops(rest)
    ensures rest == Identifier(SkipWs(SkipWs(s)[2..])).rest && s == before + ("->" + (after + (target + rest)))
  {
    hide SkipWs, Identifier, Name, NameStops, Gap;
    var s1 := SkipWs(s);
    var s2 := SkipWs(s1[2..]);
    before, after, target, rest := Blanks(s), Blanks(s1[2..]), Identifier(s2).value, Identifier(s2).rest;
    IdentOf(s2);
    Prefix(s1, "->");
    assert s2 == target + rest && s1[2..] == after + s2;
  }

  /** What `NodeOrEdge` makes of an edge. */
  lemma EdgeIsRead(s: string, first: string, tail: string, rest: string)
    requires Identifier(s) == Ok(first, tail) && "->" <= SkipWs(tail) && NodeOrEdge(s).Ok?
    requires Identifier(SkipWs(SkipWs(tail)[2..])).Ok? && rest == Identifier(SkipWs(SkipWs(tail)[2..])).rest
    ensures ChainFrom(rest).Ok? && NodeOrEdge(s).rest == EndStatement(OptionalBlock(SkipWs(ChainFrom(rest).rest)).1)
  {
    hide SkipWs, Identifier, ChainFrom, OptionalBlock, EndStatement, AttrValue;
  }

  lemma EdgeTarget(s: string, first: string, tail: string)
    requires Identifier(s) == Ok(first, tail) && "->" <= SkipWs(tail) && NodeOrEdge(s).Ok?
    ensures Identifier(SkipWs(SkipWs(tail)[2..])).Ok?
  {
    hide SkipWs, Identifier, ChainFrom, OptionalBlock, EndStatement, AttrValue;
  }

  lemma EdgeOf(s: string, first: string, tail: string) returns (f: Form)
    requires Identifier(s) == Ok(first, tail) && "->" <= SkipWs(tail) && NodeOrEdge(s).Ok?
    ensures f.EdgeForm? && s == FormText(f, NodeOrEdge(s).rest) && FormOk(f, NodeOrEdge(s).rest)
  {
    hide SkipWs, Identifier, ChainFrom, OptionalBlock, EndStatement, NodeOrEdge, TailText, TailOk, HopsText, HopsOk, Name, NameStops;
    IdentOf(s);
    EdgeTarget(s, first, tail);
    var before, after, target, rest := HopOf(tail);
    EdgeIsRead(s, first, tail, rest);
    var hops, end := ChainOf(rest);
    SkipWsTwice(end);
    var gap, attrs, finish := TailOf(end);
    HopsPrepend(before, after, target, hops, end);
    f := EdgeForm(first, [Hop(before, after, target)] + hops, gap, attrs, finish);
  }

  lemma HopsPrepend(before: string, after: string, target: string, hops: seq<Hop>, tail: string)
    requires Gap(before) && Gap(after) && Name(target) && NameStops(HopsText(hops, tail)) && HopsOk(hops, tail)
    ensures var all := [Hop(before, after, target)] + hops;
      && HopsText(all, tail) == before + ("->" + (after + (target + HopsText(hops, tail)))) && HopsOk(all, tail)
  {
    assert ([Hop(before, after, target)] + hops)[1..] == hops;
  }

  /** A block read as no attributes has no items. */
  lemma HollowOf(s: string) returns (open: string)
    requires AttrBlock(s).Ok? && AttrBlock(s).value == map[]
    ensures Gap(open) && s == "[" + (open + ("]" + AttrBlock(s).rest))
  {
    hide AttrBlock, ItemText, ItemOk, ItemsMean;
    var b := BlockOf(s);
    var attrs := BlockRead(b, AttrBlock(s).rest);
    ItemsGive(attrs, b.items);
    open := b.open;
  }

  lemma ItemsGive(attrs: Attrs, items: seq<Item>)
    requires ItemsMean(attrs, items)
    ensures items != [] ==> attrs != map[]
  {
    hide KeyOf, LastWithKey, ValueMeans, Written;
    if items != [] { assert KeyOf(items[0]) in attrs; }
  }

  /** What `NodeOrEdge` makes of a bare attribute. */
  lemma BareIsRead(s: string, key: string, tail: string)
    requires Identifier(s) == Ok(key, tail) && NodeOrEdge(s).Ok? && NodeOrEdge(s).value.GraphAttrDecl?
    ensures var block := OptionalBlock(SkipWs(tail)); var s2 := SkipWs(block.1);
      && block.0 == map[] && s2 != "" && s2[0] == '=' && AttrValue(SkipWs(s2[1..])).Ok?
      && NodeOrEdge(s).rest == EndStatement(AttrValue(SkipWs(s2[1..])).rest)
  {
    hide SkipWs, Identifier, OptionalBlock, EndStatement, AttrValue, EdgeRest;
    if "->" <= SkipWs(tail) { EdgeRestIsEdge(key, SkipWs(tail)[2..]); }
  }

  lemma EdgeRestIsEdge(first: string, s: string)
    ensures EdgeRest(first, s).Ok? ==> EdgeRest(first, s).value.Edge?
  {
  }

  /** The part of a bare attribute from its `=` on. */
  lemma ValuePart(s: string) returns (g2: string, v: ValueForm, end: End)
    requires s != "" && s[0] == '=' && AttrValue(SkipWs(s[1..])).Ok?
    ensures var rest := EndStatement(AttrValue(SkipWs(s[1..])).rest);
      && Gap(g2) && Gap(end.gap) && ValueOk(v, EndText(end, rest)) && s == "=" + (g2 + ValueText(v, EndText(end, rest)))
  {
    hide SkipWs, AttrValue, ValueOk, ValueText, EndStatement, EndText;
    Head(s, "=");
    g2 := Blanks(s[1..]);
    v := ValueOf(SkipWs(s[1..]));
    end := EndOf(AttrValue(SkipWs(s[1..])).rest);
  }

  lemma NotReserved(s: string, id: string, tail: string)
    requires s == id + tail && AttrBlock(SkipWs(tail)).Ok?
    requires !KeywordBlock(s, "graph").Ok? && !KeywordBlock(s, "node").Ok? && !KeywordBlock(s, "edge").Ok?
    ensures !Reserved(id)
  {
    hide AttrBlock, SkipWs, KeywordBlock;
    if Reserved(id) { KeywordThen(id, tail, AttrBlock(SkipWs(tail)).value, AttrBlock(SkipWs(tail)).rest); }
  }

  /** A bare attribute, perhaps behind a block without items. */
  lemma BareOf(s: string, key: string, tail: string) returns (f: Form)
    requires Identifier(s) == Ok(key, tail) && NodeOrEdge(s).Ok? && NodeOrEdge(s).value.GraphAttrDecl?
    requires !KeywordBlock(s, "graph").Ok? && !KeywordBlock(s, "node").Ok? && !KeywordBlock(s, "edge").Ok?
    ensures f.Bare? && s == FormText(f, NodeOrEdge(s).rest) && FormOk(f, NodeOrEdge(s).rest)
  {
    hide SkipWs, Identifier, AttrBlock, KeywordBlock, NodeOrEdge, EndStatement, AttrValue, Name, ValueText, ValueOk, EndText;
    IdentOf(s);
    BareIsRead(s, key, tail);
    var s1 := SkipWs(tail);
    var behind := OptionalBlock(s1).1;
    var g2, v, end := ValuePart(SkipWs(behind));
    var gap := Blanks(tail);
    if AttrBlock(s1).Ok? {
      NotReserved(s, key, tail);
      var open := HollowOf(s1);
      var g1 := Blanks(behind);
      f := Bare(key, Some(Hollow(gap, open)), g1, g2, v, end);
    } else {
      SkipWsTwice(tail);
      f := Bare(key, None, gap, g2, v, end);
    }
  }

  /** What `NodeOrEdge` makes of a node. */
  lemma NodeIsRead(s: string, id: string, tail: string)
    requires Identifier(s) == Ok(id, tail) && NodeOrEdge(s).Ok? && NodeOrEdge(s).value.Node?
    ensures NodeOrEdge(s).rest == EndStatement(OptionalBlock(SkipWs(tail)).1)
  {
    hide SkipWs, Identifier, OptionalBlock, AttrValue, EdgeRest;
    if "->" <= SkipWs(tail) { EdgeRestIsEdge(id, SkipWs(tail)[2..]); }
  }

  /** A node, and nothing behind a bare `subgraph` that makes it a subgraph. */
  lemma NodeOf(s: string, id: string, tail: string) returns (f: Form)
    requires Identifier(s) == Ok(id, tail) && NodeOrEdge(s).Ok? && NodeOrEdge(s).value.Node?
    requires !KeywordBlock(s, "graph").Ok? && !KeywordBlock(s, "node").Ok? && !KeywordBlock(s, "edge").Ok?
    requires !SubgraphStmt(s).Ok? && Statements(NodeOrEdge(s).rest).Ok?
    ensures f.NodeForm? && s == FormText(f, NodeOrEdge(s).rest) && FormOk(f, NodeOrEdge(s).rest)
  {
    hide SkipWs, Identifier, AttrBlock, KeywordBlock, NodeOrEdge, SubgraphStmt, Statements, EndStatement, Name, TailText, TailOk,
      NamedBrace;
    IdentOf(s);
    NodeIsRead(s, id, tail);
    var gap, attrs, end := TailOf(tail);
    f := NodeForm(id, gap, attrs, end);
    if attrs.Some? { NotReserved(s, id, tail); }
    BareSubgraph(tail);
    EndAtWord(tail);
  }

  /** A body that can be read and is closed. */
  ghost predicate Nests(inner: string) {
    var r := Statements(inner);
    r.Ok? && SkipWs(r.rest) != "" && SkipWs(r.rest)[0] == '}'
  }

  /** A name before a brace whose body cannot be read is no statement that
      others can follow. */
  lemma BraceStops(id: string, tail: string, inner: string)
    requires IsIdent(id) && !StartsWith(tail, IsIdentChar) && SkipWs(tail) == "{" + inner && !Nests(inner)
    ensures !Statements(id + tail).Ok?
  {
    hide OneStatement, SubgraphStmt, NodeOrEdge, Statements, SkipWs, KeywordBlock, Identifier, OptionalBlock, OptionalName;
    var s := id + tail;
    KeywordMiss("graph", id, tail);
    KeywordMiss("node", id, tail);
    KeywordMiss("edge", id, tail);
    DispatchWord(s);
    IdentAt(id, tail);
    NoBlock("{" + inner);
    BareWord(s, id, tail);
    WordIsNoSubgraph(id, tail, inner);
    assert !OneStatement(s).Ok? || OneStatement(s).rest == "{" + inner;
    DeadStart("{" + inner);
    StuckStatements(s);
  }

  lemma WordIsNoSubgraph(id: string, tail: string, inner: string)
    requires IsIdent(id) && !StartsWith(tail, IsIdentChar) && SkipWs(tail) == "{" + inner && !Nests(inner)
    ensures !SubgraphStmt(id + tail).Ok?
  {
    hide SubgraphStmt, Statements, SkipWs, OptionalName, EndStatement;
    var s := id + tail;
    if "subgraph" <= s {
      PrefixOfWord("subgraph", id, tail);
      var part := id[8..];
      NameThen(part, tail);
      if part == "" || IsIdent(part) { SubgraphBrace(s, part + tail, inner); } else { NoBrace(s, part + tail); }
    } else {
      NotSubgraph(s);
    }
  }

  /** A bare `subgraph` before a name and a brace is one, or cannot be read. */
  lemma BareSubgraph(tail: string)
    ensures NamedBrace(tail) ==>
      SubgraphStmt("subgraph" + tail).Ok? || (StartsWith(SkipWs(tail), IsIdentStart) && !Statements(SkipWs(tail)).Ok?)
  {
    if NamedBrace(tail) { BareSubgraphStops(tail); }
  }

  /** Nothing ends a statement where a word starts. */
  lemma EndAtWord(tail: string)
    ensures StartsWith(SkipWs(tail), IsIdentStart) ==>
      EndStatement(SkipWs(tail)) == SkipWs(tail) && OptionalBlock(SkipWs(tail)) == (map[], SkipWs(tail))
  {
    hide SkipWs, OptionalBlock;
    SkipWsTwice(tail);
    if StartsWith(SkipWs(tail), IsIdentStart) { NoBlock(SkipWs(tail)); }
  }

  lemma BareSubgraphStops(tail: string)
    requires NamedBrace(tail)
    ensures SubgraphStmt("subgraph" + tail).Ok? || (StartsWith(SkipWs(tail), IsIdentStart) && !Statements(SkipWs(tail)).Ok?)
  {
    hide SubgraphStmt, Statements, SkipWs, OptionalName, EndStatement, Nests;
    var g1, name, g2, inner :| NamedBraceIs(tail, g1, name, g2, inner);
    var behind := g2 + ("{" + inner);
    NameIs(name);
    assert behind[0] == if g2 == "" then '{' else g2[0];
    GapThen(g2, "{" + inner);
    GapThen(g1, name + behind);
    if Nests(inner) {
      NamedSubgraph(tail, name, behind, inner);
    } else {
      BraceStops(name, behind, inner);
    }
  }

  lemma NamedSubgraph(tail: string, name: string, behind: string, inner: string)
    requires IsIdent(name) && SkipWs(tail) == name + behind && !StartsWith(behind, IsIdentChar) && SkipWs(behind) == "{" + inner
    requires Nests(inner)
    ensures SubgraphStmt("subgraph" + tail).Ok?
  {
    hide SubgraphStmt, Statements, SkipWs, EndStatement, Identifier;
    IdentAt(name, behind);
    Drop("subgraph", tail);
    SubgraphBrace("subgraph" + tail, tail, inner);
  }

  /** The optional name of a subgraph. */
  lemma NameOf(s: string) returns (g1: string, g2: string)
    ensures var r := OptionalName(SkipWs(s));
      && Gap(g1) && Gap(g2) && (r.0.Some? ==> Name(r.0.value))
      && s == g1 + ((if r.0.Some? then r.0.value else "") + (g2 + SkipWs(r.1)))
  {
    hide SkipWs, Identifier, Name;
    g1 := Blanks(s);
    var s1 := SkipWs(s);
    g2 := Blanks(OptionalName(s1).1);
    if Identifier(s1).Ok? { IdentOf(s1); }
  }

  lemma {:induction false} NestedOf(s: string) returns (f: Form)
    requires SubgraphStmt(s).Ok?
    ensures f.Nested? && s == FormText(f, SubgraphStmt(s).rest) && FormOk(f, SubgraphStmt(s).rest)
    decreases |s|, 0
  {
    hide SkipWs, OptionalName, Statements, LinesText, LinesOk, EndStatement, EndText;
    var rest := s[8..];
    assert s == "subgraph" + rest;
    var g1, g2 := NameOf(rest);
    var name := OptionalName(SkipWs(rest)).0;
    var s1 := SkipWs(OptionalName(SkipWs(rest)).1);
    Head(s1, "{");
    StatementsSkipWs(s1[1..]);
    ShorterInner(rest);
    var lines, g3 := LinesOf(s1[1..]);
    var s2 := Statements(s1[1..]).rest;
    Head(s2, "}");
    var end := EndOf(s2[1..]);
    f := Nested(g1, name, g2, lines, g3, end);
  }

  lemma ShorterInner(rest: string)
    ensures |SkipWs(OptionalName(SkipWs(rest)).1)| <= |rest|
  {
    hide Identifier;
  }

  /** Every statement that is read, if others can be read behind it. */
  lemma {:induction false} FormOf(s: string) returns (f: Form)
    requires SkipWs(s) == s && OneStatement(s).Ok? && Statements(OneStatement(s).rest).Ok?
    ensures s == FormText(f, OneStatement(s).rest) && FormOk(f, OneStatement(s).rest)
    decreases |s|, 1
  {
    hide SkipWs, KeywordBlock, SubgraphStmt, NodeOrEdge, Statements, FormText, FormOk;
    if KeywordBlock(s, "graph").Ok? {
      f := SettingsOf(s, OfGraph);
    } else if KeywordBlock(s, "node").Ok? {
      f := SettingsOf(s, OfNode);
    } else if KeywordBlock(s, "edge").Ok? {
      f := SettingsOf(s, OfEdge);
    } else if SubgraphStmt(s).Ok? {
      f := NestedOf(s);
    } else {
      f := WordOf(s);
    }
  }

  lemma WordOf(s: string) returns (f: Form)
    requires NodeOrEdge(s).Ok? && Statements(NodeOrEdge(s).rest).Ok?
    requires !KeywordBlock(s, "graph").Ok? && !KeywordBlock(s, "node").Ok? && !KeywordBlock(s, "edge").Ok?
    requires !SubgraphStmt(s).Ok?
    ensures s == FormText(f, NodeOrEdge(s).rest) && FormOk(f, NodeOrEdge(s).rest)
  {
    hide SkipWs, KeywordBlock, SubgraphStmt, Statements, FormText, FormOk, Identifier, EdgeRest, OptionalBlock, AttrValue;
    var id, tail := Identifier(s).value, Identifier(s).rest;
    if "->" <= SkipWs(tail) {
      f := EdgeOf(s, id, tail);
    } else if NodeOrEdge(s).value.Node? {
      f := NodeOf(s, id, tail);
    } else {
      f := BareOf(s, id, tail);
    }
  }

  /** MAIN RESULT on statements. Every list of statements that is read is one
      in some layout. */
  lemma {:induction false} LinesOf(s: string) returns (lines: seq<Line>, gap: string)
    requires Statements(s).Ok?
    ensures Gap(gap) && SkipWs(Statements(s).rest) == Statements(s).rest
    ensures s == LinesText(lines, gap + Statements(s).rest) && LinesOk(lines, gap + Statements(s).rest)
    decreases |s|, 2
  {
    hide SkipWs, OneStatement, FormText, FormOk;
    var lead, s1 := Blanks(s), SkipWs(s);
    SkipWsTwice(s);
    if s1 == "" || s1[0] == '}' {
      lines, gap := [], lead;
    } else {
      var rest := OneStatement(s1).rest;
      var f := FormOf(s1);
      var more;
      more, gap := LinesOf(rest);
      lines := [Line(lead, f)] + more;
      assert lines[1..] == more;
    }
  }

  // ---------------------------------------------------------------------
  // Descriptions
  // ---------------------------------------------------------------------

  /** What `Digraph` accepts, part by part. */
  lemma HeadOf(s: string) returns (lead: string, g1: string, name: string, g2: string, inner: string)
    requires Digraph(s).Ok?
    ensures Gap(lead) && Gap(g1) && Name(name) && Gap(g2)
    ensures s == lead + ("digraph" + (g1 + (name + (g2 + ("{" + inner)))))
    ensures Statements(inner).Ok? && SkipWs(Statements(inner).rest) != "" && SkipWs(Statements(inner).rest)[0] == '}'
  {
    hide SkipWs, Identifier, Statements, Name, Gap;
    var s1 := SkipWs(s);
    var s2 := SkipWs(s1[7..]);
    IdentOf(s2);
    var rest := Identifier(s2).rest;
    var s3 := SkipWs(rest);
    lead, g1, name, g2, inner := Blanks(s), Blanks(s1[7..]), Identifier(s2).value, Blanks(rest), s3[1..];
    Head(s3, "{");
    assert s1 == "digraph" + s1[7..];
    StatementsSkipWs(inner);
  }

  lemma DocumentOf(s: string) returns (d: Document)
    requires Digraph(s).Ok?
    ensures DocumentOk(d) && s == DocumentText(d)
  {
    hide Digraph, SkipWs, Statements, LinesText, LinesOk, Name, Gap;
    var lead, g1, name, g2, inner := HeadOf(s);
    var lines, g3 := LinesOf(inner);
    var s4 := Statements(inner).rest;
    Head(s4, "}");
    d := Document(lead, g1, name, g2, lines, g3, s4[1..]);
  }

  /** MAIN RESULT. `parse` accepts an input if and only if, its comments
      stripped, it is a description in some layout; and then it returns the
      graph that the statements of any such layout mean. */
  lemma AcceptedExactly(input: string)
    ensures Parse(input).Some? <==> exists d :: DocumentOk(d) && DocumentText(d) == Strip(input)
    ensures forall d | DocumentOk(d) && DocumentText(d) == Strip(input) ::
              exists stmts :: LinesMean(stmts, d.lines) && Parse(input) == Some(Graph(d.name, Merge(stmts)))
  {
    hide Digraph, Strip, DocumentOk, DocumentText, LinesMean, Merge;
    if Parse(input).Some? {
      var d := DocumentOf(Strip(input));
    }
    forall d | DocumentOk(d) && DocumentText(d) == Strip(input)
      ensures exists stmts :: LinesMean(stmts, d.lines) && Parse(input) == Some(Graph(d.name, Merge(stmts)))
    {
      var stmts := DocumentRead(input, d);
    }
  }
}
