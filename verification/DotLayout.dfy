/** The parser reads every layout: whatever choices a description is written
    with, it is read as what it means. */
module DotLayout {
  import opened Wrappers
  import opened DotAst
  import opened DotLex
  import opened DotGrammar
  import opened DotLexemes
  import opened DotReadBack
  import opened DotTextRoundTrip
  import opened DotMerge
  import opened DotComments
  import opened DotTheorems
  import opened DotForms

  // ---------------------------------------------------------------------
  // Blanks and names
  // ---------------------------------------------------------------------

  lemma {:induction false} GapThrough(gap: string, more: string)
    requires Gap(gap)
    ensures SkipWs(gap + more) == SkipWs(more)
    decreases |gap|
  {
    hide SkipWs;
    if gap == "" {
      assert gap + more == more;
    } else {
      assert gap + more == [gap[0]] + (gap[1..] + more);
      SkipWsOne(gap[0], gap[1..] + more);
      GapThrough(gap[1..], more);
    }
  }

  lemma GapThen(gap: string, more: string)
    requires Gap(gap) && !StartsWith(more, IsSpace)
    ensures SkipWs(gap + more) == more
  {
    hide SkipWs;
    GapThrough(gap, more);
    SkipWsNone(more);
  }

  lemma NameIs(s: string)
    ensures Name(s) <==> IsIdent(s)
    ensures NameStops(s) <==> !StartsWith(s, IsIdentChar)
  {
  }

  // ---------------------------------------------------------------------
  // Values
  // ---------------------------------------------------------------------

  lemma {:induction false} PiecesRead(pieces: seq<Piece>, more: string)
    requires forall p | p in pieces && p.Plain? :: p.c != '"' && p.c != '\\'
    ensures QuotedBody(PiecesText(pieces, "\"" + more)) == Ok(PiecesMean(pieces), more)
    decreases |pieces|
  {
    hide QuotedBody;
    var end := "\"" + more;
    if pieces == [] {
      BodyEnds(more);
    } else {
      PiecesRead(pieces[1..], more);
      var rest := PiecesText(pieces[1..], end);
      match pieces[0]
      case Plain(c) =>
        assert pieces[0] in pieces;
        PlainRead(c, rest);
      case Escaped(c) => EscapedRead(c, rest);
    }
  }

  lemma BodyEnds(more: string)
    ensures QuotedBody("\"" + more) == Ok("", more)
  {
    assert ("\"" + more)[1..] == more;
  }

  lemma PlainRead(c: char, rest: string)
    requires c != '"' && c != '\\' && QuotedBody(rest).Ok?
    ensures QuotedBody([c] + rest) == Ok([c] + QuotedBody(rest).value, QuotedBody(rest).rest)
  {
    assert ([c] + rest)[1..] == rest;
  }

  lemma EscapedRead(c: char, rest: string)
    requires QuotedBody(rest).Ok?
    ensures QuotedBody(['\\', c] + rest)
         == Ok((if c == 'n' then "\n" else if c == 't' then "\t" else if c == '\\' || c == '"' then [c] else ['\\', c])
               + QuotedBody(rest).value, QuotedBody(rest).rest)
  {
    assert (['\\', c] + rest)[2..] == rest;
  }

  lemma {:induction false} NumberIs(figures: string)
    requires forall i | 0 <= i < |figures| :: Figure(figures[i])
    ensures All(figures, IsDigit) && Numeral(figures) == Number(figures)
    decreases |figures|
  {
    if figures != "" { NumberIs(figures[..|figures| - 1]); }
  }

  /** Figures, and where they end. */
  lemma FiguresAt(figures: string, more: string)
    requires Figures(figures) && !StartsWith(more, IsDigit)
    ensures var s := figures + more;
      && Span(s, IsDigit) == |figures| > 0 && s[..|figures|] == figures && s[|figures|..] == more
      && Numeral(figures) == Number(figures) && All(figures, IsDigit) && IsDigit(s[0])
  {
    NumberIs(figures);
    SpanExact(figures, more, IsDigit);
  }

  lemma UnitIs(unit: TimeUnit, n: nat, more: string)
    requires !(unit.Minutes? && StartsIn(more, "s"))
    ensures Unit(UnitText(unit) + more, n) == Some((|UnitText(unit)|, TimeMeans(n, unit)))
    ensures !StartsWith(UnitText(unit) + more, IsDigit)
  {
    var s := UnitText(unit) + more;
    assert s[0] == UnitText(unit)[0];
    if |s| > 1 && !unit.Millis? { assert s[1] == more[0]; }
  }

  lemma DropBoth(a: string, b: string, c: string)
    ensures (a + (b + c))[|a| + |b|..] == c
  {
  }

  lemma TimeRead(figures: string, unit: TimeUnit, more: string)
    requires Written(Time(figures, unit)) && ValueStops(Time(figures, unit), more)
    ensures DurationValue(figures + (UnitText(unit) + more)) == Ok(Duration(TimeMeans(Number(figures), unit)), more)
    ensures var s := figures + (UnitText(unit) + more); IsDigit(s[0])
  {
    hide Unit, Span, TimeMeans, UnitText, Number, Numeral;
    var rest := UnitText(unit) + more;
    UnitIs(unit, Number(figures), more);
    FiguresAt(figures, rest);
    DropBoth(figures, UnitText(unit), more);
  }

  /** A sign and figures, from their start. */
  lemma SignAt(sign: string, body: string)
    requires DotForms.Sign(sign) && StartsWith(body, IsDigit)
    ensures var s := sign + body;
      && DotLex.Sign(s) == |sign| && s[|sign|..] == body && s != "" && (IsDigit(s[0]) || s[0] == '-' || s[0] == '+')
      && (sign == "" ==> s == body) && (sign != "" ==> !IsDigit(s[0]) && s[0] == sign[0])
  {
  }

  lemma CountIsNoReal(sign: string, figures: string, more: string)
    requires DotForms.Sign(sign) && Figures(figures) && !StartsIn(more, "0123456789")
    requires !(|more| >= 2 && more[0] == '.' && Figure(more[1]))
    ensures FloatLen(sign + (figures + more)) == 0
  {
    hide Span;
    var s := sign + (figures + more);
    FiguresAt(figures, more);
    SignAt(sign, figures + more);
    var whole := |sign| + |figures|;
    assert whole < |s| ==> s[whole] == more[0] && s[whole + 1..] == more[1..];
    if more != "" { NoFraction(more[1..]); }
  }

  lemma NoFraction(s: string)
    ensures s == "" || !IsDigit(s[0]) ==> Span(s, IsDigit) == 0
  {
  }

  lemma CountIs(sign: string, figures: string, more: string)
    requires Written(Count(sign, figures)) && !StartsIn(more, "0123456789")
    ensures IntegerValue(sign + (figures + more)) == Ok(Integer(Signed(sign, Number(figures))), more)
  {
    hide Span, Number;
    FiguresAt(figures, more);
    SignAt(sign, figures + more);
  }

  lemma CountRead(sign: string, figures: string, more: string)
    requires Written(Count(sign, figures)) && ValueStops(Count(sign, figures), more)
    ensures var s := sign + (figures + more);
      && s != "" && (IsDigit(s[0]) || s[0] == '-' || s[0] == '+')
      && FloatLen(s) == 0 && DurationValue(s) == Backtrack
      && IntegerValue(s) == Ok(Integer(Signed(sign, Number(figures))), more)
  {
    hide Span, FloatLen, DurationValue, IntegerValue, Number;
    FiguresAt(figures, more);
    SignAt(sign, figures + more);
    CountIsNoReal(sign, figures, more);
    CountIs(sign, figures, more);
    if sign == "" { CountIsNoTime(figures, more); } else { NoFigures(sign + (figures + more)); }
  }

  lemma CountIsNoTime(figures: string, more: string)
    requires Figures(figures) && !StartsIn(more, "0123456789") && !StartsIn(more, "smhd")
    ensures DurationValue(figures + more) == Backtrack
  {
    hide Span;
    FiguresAt(figures, more);
    assert Unit(more, Numeral(figures)).None?;
  }

  lemma RealIs(sign: string, whole: string, fraction: string, more: string)
    requires Written(Real(sign, whole, fraction)) && !StartsWith(more, IsDigit)
    ensures var s := sign + (whole + ("." + (fraction + more)));
      FloatValue(s) == Ok(Float(sign + (whole + ("." + fraction))), more)
  {
    hide Span, FloatLen, Take;
    NumberIs(whole);
    NumberIs(fraction);
    FloatLenOf(sign, whole, fraction, more);
    FloatRegroup(sign, whole, fraction, more);
    TakeAt(sign + (whole + ("." + fraction)), more);
  }

  lemma RealRead(sign: string, whole: string, fraction: string, more: string)
    requires Written(Real(sign, whole, fraction)) && ValueStops(Real(sign, whole, fraction), more)
    ensures var s := sign + (whole + ("." + (fraction + more)));
      && s != "" && (IsDigit(s[0]) || s[0] == '-' || s[0] == '+')
      && FloatValue(s) == Ok(Float(sign + (whole + ("." + fraction))), more) && DurationValue(s) == Backtrack
  {
    hide Span, FloatLen, DurationValue, FloatValue;
    var rest := "." + (fraction + more);
    FiguresAt(whole, rest);
    SignAt(sign, whole + rest);
    RealIs(sign, whole, fraction, more);
    if sign == "" { NoDuration(whole, fraction + more); } else { NoFigures(sign + (whole + rest)); }
  }

  lemma NoFigures(s: string)
    requires s != "" && !IsDigit(s[0])
    ensures DurationValue(s) == Backtrack
  {
  }

  /** MAIN RESULT on values. Every value in every spelling is read as what it
      means, up to where it stops. */
  lemma ValueRead(v: ValueForm, more: string)
    requires ValueOk(v, more)
    ensures AttrValue(ValueText(v, more)) == Ok(ValueMeans(v), more)
    ensures ValueText(v, more) != "" && !IsSpace(ValueText(v, more)[0])
  {
    hide QuotedBody, DurationValue, FloatLen, FloatValue, IntegerValue, Number;
    match v {
      case Quote(pieces) =>
        PiecesRead(pieces, more);
        assert ValueText(v, more)[1..] == PiecesText(pieces, "\"" + more);
      case Truth(b) => TruthRead(b, more);
      case Time(figures, unit) =>
        TimeRead(figures, unit, more);
        NoOpening(ValueText(v, more));
      case Real(sign, whole, fraction) =>
        RealRead(sign, whole, fraction, more);
        NoOpening(ValueText(v, more));
      case Count(sign, figures) =>
        CountRead(sign, figures, more);
        OnlyInteger(ValueText(v, more));
    }
  }

  lemma TruthRead(b: bool, more: string)
    ensures AttrValue((if b then "true" else "false") + more) == Ok(Boolean(b), more)
  {
    BooleanAt(b, more);
  }

  // ---------------------------------------------------------------------
  // Keys
  // ---------------------------------------------------------------------

  lemma {:induction false} DottedMore(parts: seq<string>, more: string)
    ensures Dotted(parts, more) == Dotted(parts, "") + more
    decreases |parts|
  {
    if parts == [] {
      assert "" + more == more;
    } else {
      DottedMore(parts[1..], more);
    }
  }

  lemma {:induction false} DottedRead(parts: seq<string>, more: string)
    requires (forall part | part in parts :: Name(part)) && KeyEnd(more)
    ensures DottedLen(Dotted(parts, more)) == |Dotted(parts, "")|
    ensures !StartsWith(Dotted(parts, more), IsIdentChar)
    decreases |parts|
  {
    hide DottedLen;
    if parts == [] {
      DottedUnfold(more);
    } else {
      assert parts[0] in parts;
      NameIs(parts[0]);
      DottedRead(parts[1..], more);
      DottedCons(parts[0], Dotted(parts[1..], more));
    }
  }

  lemma KeyRead(it: Item, more: string)
    requires Name(it.key) && (forall part | part in it.dotted :: Name(part)) && KeyEnd(more)
    ensures QualifiedId(it.key + Dotted(it.dotted, more)) == Ok(KeyOf(it), more)
    ensures StartsWith(it.key + Dotted(it.dotted, more), IsIdentStart)
  {
    hide QualifiedLen, DottedLen, Dotted;
    NameIs(it.key);
    DottedRead(it.dotted, more);
    QualifiedCons(it.key, Dotted(it.dotted, more));
    DottedMore(it.dotted, more);
    assert it.key + Dotted(it.dotted, more) == KeyOf(it) + more;
    TakeAt(KeyOf(it), more);
  }

  // ---------------------------------------------------------------------
  // Attribute blocks
  // ---------------------------------------------------------------------

  lemma ItemRead(it: Item, more: string)
    requires ItemOk(it, more)
    ensures Attr(ItemText(it, more)) == Ok((KeyOf(it), ValueMeans(it.value)), AfterValue(it, more))
    ensures StartsWith(ItemText(it, more), IsIdentStart)
  {
    hide QualifiedId, AttrValue, SkipWs, Dotted, ValueText, ValueOk, Name, ValueMeans, KeyOf;
    var value := ValueText(it.value, AfterValue(it, more));
    var rest := "=" + (it.g2 + value);
    GapThen(it.g1, rest);
    EqualsEnds(it.g1, rest);
    KeyRead(it, it.g1 + rest);
    ValueRead(it.value, AfterValue(it, more));
    GapThen(it.g2, value);
    assert rest[1..] == it.g2 + value;
  }

  lemma EqualsEnds(gap: string, rest: string)
    requires Gap(gap) && rest != "" && rest[0] == '='
    ensures KeyEnd(gap + rest)
  {
    assert (gap + rest)[0] == if gap == "" then rest[0] else gap[0];
  }

  lemma SeparatorRead(it: Item, more: string)
    requires Gap(it.g3) && Gap(it.g4) && (it.sep == "" || it.sep == "," || it.sep == ";")
    requires more != "" && !IsSpace(more[0]) && more[0] != ',' && more[0] != ';'
    ensures SkipSeparator(AfterValue(it, more)) == more
  {
    hide SkipWs;
    var rest := it.sep + (it.g4 + more);
    GapThrough(it.g3, rest);
    GapThen(it.g4, more);
    if it.sep == "" {
      assert rest == it.g4 + more;
      SkipWsNone(more);
    } else {
      SkipWsNone(rest);
      assert rest[1..] == it.g4 + more;
    }
  }

  /** What the items give, the first first. */
  ghost function Given(acc: Attrs, items: seq<Item>): Attrs
    requires forall it | it in items :: Written(it.value)
    decreases |items|
  {
    if items == [] then acc
    else
      assert items[0] in items;
      Given(acc[KeyOf(items[0]) := ValueMeans(items[0].value)], items[1..])
  }

  lemma {:induction false} ItemsWritten(items: seq<Item>, more: string)
    requires ItemsOk(items, more)
    ensures forall it | it in items :: Written(it.value)
    decreases |items|
  {
    if items != [] { ItemsWritten(items[1..], more); }
  }

  lemma ItemsStart(items: seq<Item>, tail: string)
    requires ItemsOk(items, "]" + tail)
    ensures var s := ItemsText(items, "]" + tail); s != "" && !IsSpace(s[0]) && s[0] != ',' && s[0] != ';'
  {
    hide ItemOk, ItemText;
    if items != [] { ItemRead(items[0], ItemsText(items[1..], "]" + tail)); }
  }

  lemma {:induction false} ItemsRead(acc: Attrs, s: string, items: seq<Item>, tail: string)
    requires ItemsOk(items, "]" + tail) && SkipSeparator(s) == ItemsText(items, "]" + tail)
    requires forall it | it in items :: Written(it.value)
    ensures AttrsFrom(acc, s) == (Given(acc, items), "]" + tail)
    decreases |items|
  {
    hide Attr, SkipSeparator, ItemText, ItemOk, KeyOf, ValueMeans, Written, AfterValue;
    if items == [] {
      EndIsNoAttr("]" + tail);
    } else {
      var more := ItemsText(items[1..], "]" + tail);
      ItemStep(items[0], more);
      ItemsStart(items[1..], tail);
      assert items[0] in items;
      ItemsRead(acc[KeyOf(items[0]) := ValueMeans(items[0].value)], AfterValue(items[0], more), items[1..], tail);
    }
  }

  lemma ItemStep(it: Item, more: string)
    requires ItemOk(it, more)
    ensures Attr(ItemText(it, more)) == Ok((KeyOf(it), ValueMeans(it.value)), AfterValue(it, more))
    ensures more != "" && !IsSpace(more[0]) && more[0] != ',' && more[0] != ';' ==> SkipSeparator(AfterValue(it, more)) == more
  {
    hide Attr, SkipSeparator, ItemText, AfterValue;
    ItemRead(it, more);
    if more != "" && !IsSpace(more[0]) && more[0] != ',' && more[0] != ';' { SeparatorRead(it, more); }
  }

  /** The last item with a key wins. */
  lemma {:induction false} GivenMeans(acc: Attrs, items: seq<Item>)
    requires forall it | it in items :: Written(it.value)
    ensures forall k :: k in Given(acc, items) <==> k in acc || HasKey(items, k)
    ensures forall k | k in acc && !HasKey(items, k) :: Given(acc, items)[k] == acc[k]
    ensures forall i | 0 <= i < |items| && LastWithKey(items, i) ::
              KeyOf(items[i]) in Given(acc, items) && Given(acc, items)[KeyOf(items[i])] == ValueMeans(items[i].value)
    decreases |items|
  {
    hide KeyOf, Written, ValueMeans;
    if items != [] {
      var rest, key := items[1..], KeyOf(items[0]);
      assert items[0] in items;
      var acc1 := acc[key := ValueMeans(items[0].value)];
      GivenMeans(acc1, rest);
      forall k ensures HasKey(items, k) <==> k == key || HasKey(rest, k) { HasKeyCons(items, k); }
      forall i | 0 <= i < |items| && LastWithKey(items, i)
        ensures KeyOf(items[i]) in Given(acc, items) && Given(acc, items)[KeyOf(items[i])] == ValueMeans(items[i].value)
      {
        LastWithKeyCons(items, i);
      }
    }
  }

  predicate HasKey(items: seq<Item>, k: string) { exists i :: 0 <= i < |items| && KeyOf(items[i]) == k }

  lemma HasKeyCons(items: seq<Item>, k: string)
    requires items != []
    ensures HasKey(items, k) <==> k == KeyOf(items[0]) || HasKey(items[1..], k)
  {
    hide KeyOf;
    if HasKey(items[1..], k) {
      var i :| 0 <= i < |items[1..]| && KeyOf(items[1..][i]) == k;
      assert items[i + 1] == items[1..][i];
    }
    if HasKey(items, k) {
      var i :| 0 <= i < |items| && KeyOf(items[i]) == k;
      if i > 0 { assert items[1..][i - 1] == items[i]; }
    }
  }

  lemma LastWithKeyCons(items: seq<Item>, i: nat)
    requires LastWithKey(items, i)
    ensures i == 0 ==> !HasKey(items[1..], KeyOf(items[0]))
    ensures i > 0 ==> LastWithKey(items[1..], i - 1) && items[1..][i - 1] == items[i]
  {
    hide KeyOf;
  }

  /** MAIN RESULT on blocks. Every block in every layout is read as its items
      say, the last with a key deciding. */
  lemma BlockRead(b: Block, more: string) returns (attrs: Attrs)
    requires BlockOk(b, more)
    ensures AttrBlock(BlockText(b, more)) == Ok(attrs, more) && ItemsMean(attrs, b.items)
  {
    hide AttrsOf, SkipWs, ItemsText, ItemsOk, Given, KeyOf, ValueMeans, LastWithKey, Written;
    var items, end := ItemsText(b.items, "]" + more), "]" + more;
    ItemsWritten(b.items, end);
    ItemsStart(b.items, more);
    GapThen(b.open, items);
    attrs := Given(map[], b.items);
    AttrsOfItems(b.items, more);
    GivenMeans(map[], b.items);
    assert BlockText(b, more)[1..] == b.open + items;
    SkipWsNone(end);
    assert end[1..] == more;
    assert forall k :: HasKey(b.items, k) <==> k in attrs;
  }

  lemma AttrsOfItems(items: seq<Item>, tail: string)
    requires ItemsOk(items, "]" + tail) && forall it | it in items :: Written(it.value)
    ensures AttrsOf(ItemsText(items, "]" + tail)) == (Given(map[], items), "]" + tail)
  {
    hide Attr, SkipSeparator, ItemText, ItemOk, KeyOf, ValueMeans, Written, AfterValue, AttrsFrom;
    if items == [] {
      EndIsNoAttr("]" + tail);
    } else {
      var more := ItemsText(items[1..], "]" + tail);
      ItemStep(items[0], more);
      ItemsStart(items[1..], tail);
      assert items[0] in items;
      var acc: Attrs := map[];
      assert map[KeyOf(items[0]) := ValueMeans(items[0].value)] == acc[KeyOf(items[0]) := ValueMeans(items[0].value)];
      ItemsRead(map[KeyOf(items[0]) := ValueMeans(items[0].value)], AfterValue(items[0], more), items[1..], tail);
    }
  }

  // ---------------------------------------------------------------------
  // The end of a statement
  // ---------------------------------------------------------------------

  lemma EndRead(end: End, more: string)
    requires Gap(end.gap) && Resumes(more)
    ensures var s := EndText(end, more);
      && SkipWs(EndStatement(s)) == SkipWs(more)
      && SkipWs(s) != "" && (if end.semi then SkipWs(s)[0] == ';' else SkipWs(s) == SkipWs(more))
  {
    hide SkipWs;
    var rest := (if end.semi then ";" else "") + more;
    GapThrough(end.gap, rest);
    SkipWsTwice(more);
    if end.semi {
      SkipWsNone(rest);
      assert rest[1..] == more;
    } else {
      assert rest == more;
    }
  }

  /** An attribute block that may be missing, and the end. */
  lemma TailRead(gap: string, attrs: Option<Block>, end: End, more: string) returns (a: Attrs, rest: string)
    requires TailOk(gap, attrs, end, more) && Resumes(more)
    ensures var s := SkipWs(TailText(gap, attrs, end, more));
      && OptionalBlock(s) == (a, rest) && AttrsMean(a, attrs)
      && s != "" && (if attrs.Some? then s[0] == '[' else if end.semi then s[0] == ';' else IsIdentStart(s[0]) || s[0] == '}')
    ensures SkipWs(EndStatement(rest)) == SkipWs(more)
    ensures SkipWs(rest) != "" && SkipWs(rest)[0] != '='
  {
    hide SkipWs, BlockText, BlockOk, AttrBlock, EndText, ItemsMean;
    EndRead(end, more);
    var s := EndText(end, more);
    match attrs {
      case Some(b) =>
        a := BlockRead(b, s);
        rest := s;
        BlockStart(b, s);
        GapThen(gap, BlockText(b, s));
      case None =>
        a, rest := map[], SkipWs(s);
        GapThrough(gap, s);
        NoBlock(SkipWs(s));
        SkipWsTwice(s);
        EndAgain(s);
    }
  }

  lemma BlockStart(b: Block, more: string)
    ensures BlockText(b, more) != "" && BlockText(b, more)[0] == '['
  {
  }

  lemma EndAgain(s: string)
    ensures EndStatement(SkipWs(s)) == EndStatement(s)
  {
    hide SkipWs;
    SkipWsTwice(s);
  }

  // ---------------------------------------------------------------------
  // Statements
  // ---------------------------------------------------------------------

  /** `s` is read as `st`, up to `more`. */
  ghost predicate ReadsAs(s: string, st: Statement, more: string) {
    var r := OneStatement(s);
    r.Ok? && r.value == st && SkipWs(r.rest) == SkipWs(more)
  }

  lemma DispatchGraph(s: string)
    requires s != "" && !IsSpace(s[0]) && KeywordBlock(s, "graph").Ok?
    ensures OneStatement(s) == Ok(GraphAttrs(KeywordBlock(s, "graph").value), KeywordBlock(s, "graph").rest)
  {
    hide KeywordBlock, SkipWs, SubgraphStmt, NodeOrEdge;
    SkipWsNone(s);
  }

  lemma SettingsRead(kind: Kind, gap: string, block: Block, end: End, more: string) returns (st: Statement)
    requires FormOk(Settings(kind, gap, block, end), more) && Resumes(more)
    ensures ReadsAs(FormText(Settings(kind, gap, block, end), more), st, more)
    ensures FormMeans(st, Settings(kind, gap, block, end))
  {
    hide OneStatement, KeywordBlock, AttrBlock, SkipWs, BlockText, BlockOk, EndText, ItemsMean, EndStatement;
    var after := EndText(end, more);
    var attrs := BlockRead(block, after);
    BlockStart(block, after);
    GapThen(gap, BlockText(block, after));
    EndRead(end, more);
    var tail := gap + BlockText(block, after);
    var s := Keyword(kind) + tail;
    KeywordThen(Keyword(kind), tail, attrs, after);
    match kind {
      case OfGraph =>
        DispatchGraph(s);
        st := GraphAttrs(attrs);
      case OfNode =>
        DispatchNode(s);
        st := NodeDefaults(attrs);
      case OfEdge =>
        DispatchEdge(s);
        st := EdgeDefaults(attrs);
    }
  }

  lemma KeywordThen(keyword: string, tail: string, attrs: Attrs, after: string)
    requires AttrBlock(SkipWs(tail)) == Ok(attrs, after)
    ensures KeywordBlock(keyword + tail, keyword) == Ok(attrs, EndStatement(after))
  {
    hide AttrBlock, SkipWs, EndStatement;
    Drop(keyword, tail);
  }

  /** A brace behind a name is found as such. */
  lemma NoNamedBrace(tail: string)
    requires StartsWith(SkipWs(tail), IsIdentStart)
    ensures var s := SkipWs(OptionalName(SkipWs(tail)).1); s != "" && s[0] == '{' ==> NamedBrace(tail)
  {
    hide SkipWs, Identifier, Name, Gap;
    var s := SkipWs(tail);
    IdentSound(s);
    HasIdent(s);
    var name, rest := Identifier(s).value, Identifier(s).rest;
    NameIs(name);
    var s2 := SkipWs(rest);
    if s2 != "" && s2[0] == '{' {
      Head(s2, "{");
      assert NamedBraceIs(tail, Blanks(tail), name, Blanks(rest), s2[1..]);
    }
  }

  lemma Head(s: string, w: string)
    requires |w| == 1 && s != "" && s[0] == w[0]
    ensures s == w + s[1..]
  {
  }

  lemma HasIdent(s: string)
    requires StartsWith(s, IsIdentStart)
    ensures Identifier(s).Ok?
  {
  }

  /** The blanks at the start. */
  function Blanks(s: string): (gap: string)
    ensures Gap(gap) && s == gap + SkipWs(s)
  {
    s[..Span(s, IsSpace)]
  }

  /** The rest of a word behind `subgraph` is its name, or no name at all. */
  lemma NoPartBrace(part: string, tail: string)
    requires part != "" && All(part, IsIdentChar) && !StartsWith(tail, IsIdentChar)
    requires StartsWith(SkipWs(tail), IsIdentStart)
    ensures var s := SkipWs(OptionalName(SkipWs(part + tail)).1); s == "" || s[0] != '{'
  {
    hide SkipWs, Identifier;
    SkipWsNone(part + tail);
    assert (part + tail)[0] == part[0];
    if IsIdentStart(part[0]) {
      IdentAt(part, tail);
    } else {
      NoIdent(part + tail);
      SkipWsNone(part + tail);
    }
  }

  lemma NoNested(id: string, tail: string)
    requires IsIdent(id) && !StartsWith(tail, IsIdentChar) && StartsWith(SkipWs(tail), IsIdentStart)
    requires id == "subgraph" ==> !NamedBrace(tail)
    ensures SubgraphStmt(id + tail) == Backtrack
  {
    hide SubgraphStmt, OptionalName, SkipWs, NamedBrace;
    if "subgraph" <= id + tail {
      PrefixOfWord("subgraph", id, tail);
      if id == "subgraph" {
        Drop(id, tail);
        NoNamedBrace(tail);
        NoBrace(id + tail, tail);
      } else {
        NoPartBrace(id[8..], tail);
        NoBrace(id + tail, id[8..] + tail);
      }
    } else {
      NotSubgraph(id + tail);
    }
  }

  /** A word that starts no keyword block and no subgraph. */
  lemma WordFalls(id: string, tail: string)
    requires IsIdent(id) && !StartsWith(tail, IsIdentChar)
    requires SkipWs(tail) != "" && SkipWs(tail)[0] != '{' && (SkipWs(tail)[0] == '[' ==> !Reserved(id))
    requires id == "subgraph" && IsIdentStart(SkipWs(tail)[0]) ==> !NamedBrace(tail)
    ensures OneStatement(id + tail) == NodeOrEdge(id + tail) && Identifier(id + tail) == Ok(id, tail)
  {
    hide OneStatement, NodeOrEdge, KeywordBlock, SubgraphStmt, Identifier, SkipWs, NamedBrace;
    if IsIdentStart(SkipWs(tail)[0]) {
      KeywordMiss("graph", id, tail);
      KeywordMiss("node", id, tail);
      KeywordMiss("edge", id, tail);
      NoNested(id, tail);
      IdentAt(id, tail);
      DispatchWord(id + tail);
    } else {
      FallsThrough(id, tail);
    }
  }

  /** A node once its block is known. */
  lemma NodeIs(s: string, id: string, tail: string, attrs: Attrs, rest: string)
    requires Identifier(s) == Ok(id, tail)
    requires SkipWs(tail) != "" && SkipWs(tail)[0] != '-' && OptionalBlock(SkipWs(tail)) == (attrs, rest)
    requires SkipWs(rest) != "" && SkipWs(rest)[0] != '='
    ensures NodeOrEdge(s) == Ok(Node(id, attrs), EndStatement(rest))
  {
    hide OptionalBlock, Identifier, SkipWs, EdgeRest, AttrValue;
  }

  lemma NodeRead(id: string, gap: string, attrs: Option<Block>, end: End, more: string) returns (st: Statement)
    requires FormOk(NodeForm(id, gap, attrs, end), more) && Resumes(more)
    ensures ReadsAs(FormText(NodeForm(id, gap, attrs, end), more), st, more)
    ensures FormMeans(st, NodeForm(id, gap, attrs, end))
  {
    hide OneStatement, NodeOrEdge, OptionalBlock, SkipWs, TailText, TailOk, EndStatement, Identifier, AttrsMean;
    var tail := TailText(gap, attrs, end, more);
    NameIs(id);
    NameIs(tail);
    var a, rest := TailRead(gap, attrs, end, more);
    WordFalls(id, tail);
    NodeIs(id + tail, id, tail, a, rest);
    st := Node(id, a);
  }

  lemma {:induction false} HopsRead(hops: seq<Hop>, tail: string)
    requires HopsOk(hops, tail) && SkipWs(tail) != "" && SkipWs(tail)[0] != '-'
    ensures ChainFrom(HopsText(hops, tail)) == Ok(Targets(hops), SkipWs(tail))
    decreases |hops|
  {
    hide SkipWs, Identifier, ChainFrom;
    if hops == [] {
      ChainEnds(tail);
    } else {
      HopsRead(hops[1..], tail);
      HopRead(hops[0], HopsText(hops[1..], tail));
      ChainCons(HopsText(hops, tail), hops[0], HopsText(hops[1..], tail));
    }
  }

  function HopText(h: Hop, more: string): string { "->" + (h.after + (h.target + more)) }

  lemma HopRead(h: Hop, more: string)
    requires Gap(h.before) && Gap(h.after) && Name(h.target) && NameStops(more)
    ensures SkipWs(h.before + HopText(h, more)) == HopText(h, more)
    ensures HopText(h, more)[2..] == h.after + (h.target + more)
    ensures Identifier(SkipWs(h.after + (h.target + more))) == Ok(h.target, more)
  {
    hide SkipWs, Identifier;
    NameIs(h.target);
    NameIs(more);
    GapThen(h.before, HopText(h, more));
    GapThen(h.after, h.target + more);
    IdentAt(h.target, more);
  }

  lemma ChainCons(s: string, h: Hop, more: string)
    requires SkipWs(s) == HopText(h, more) && HopText(h, more)[2..] == h.after + (h.target + more)
    requires Identifier(SkipWs(h.after + (h.target + more))) == Ok(h.target, more)
    requires ChainFrom(more).Ok?
    ensures ChainFrom(s) == Ok([h.target] + ChainFrom(more).value, ChainFrom(more).rest)
  {
    hide SkipWs, Identifier;
    assert "->" <= HopText(h, more);
  }

  lemma EdgeIs(s: string, first: string, h: Hop, rest: string, targets: seq<string>, tail: string)
    requires Identifier(s) == Ok(first, h.before + HopText(h, rest))
    requires SkipWs(h.before + HopText(h, rest)) == HopText(h, rest)
    requires HopText(h, rest)[2..] == h.after + (h.target + rest)
    requires Identifier(SkipWs(h.after + (h.target + rest))) == Ok(h.target, rest)
    requires ChainFrom(rest) == Ok(targets, SkipWs(tail))
    ensures var block := OptionalBlock(SkipWs(tail));
      NodeOrEdge(s) == Ok(Edge([first, h.target] + targets, block.0), EndStatement(block.1))
  {
    hide SkipWs, Identifier, OptionalBlock, ChainFrom, EndStatement, AttrValue;
    SkipWsTwice(tail);
    assert "->" <= HopText(h, rest);
  }

  lemma FirstHop(hops: seq<Hop>, tail: string)
    requires hops != [] && HopsOk(hops, tail)
    ensures var h, others := hops[0], HopsText(hops[1..], tail);
      && HopsText(hops, tail) == h.before + HopText(h, others) && Targets(hops) == [h.target] + Targets(hops[1..])
      && Gap(h.before) && Gap(h.after) && Name(h.target) && NameStops(others) && HopsOk(hops[1..], tail)
  {
  }

  lemma EdgeRead(first: string, hops: seq<Hop>, gap: string, attrs: Option<Block>, end: End, more: string) returns (st: Statement)
    requires FormOk(EdgeForm(first, hops, gap, attrs, end), more) && Resumes(more)
    ensures ReadsAs(FormText(EdgeForm(first, hops, gap, attrs, end), more), st, more)
    ensures FormMeans(st, EdgeForm(first, hops, gap, attrs, end))
  {
    hide OneStatement, NodeOrEdge, OptionalBlock, SkipWs, TailText, TailOk, EndStatement, Identifier, AttrsMean, ChainFrom;
    hide HopsText, HopText, HopsOk, Targets, Gap, NameStops;
    var tail := TailText(gap, attrs, end, more);
    var a, rest := TailRead(gap, attrs, end, more);
    var h, others := hops[0], HopsText(hops[1..], tail);
    FirstHop(hops, tail);
    HopRead(h, others);
    HopsRead(hops[1..], tail);
    ArrowAhead(h, others);
    NameIs(first);
    WordFalls(first, h.before + HopText(h, others));
    EdgeIs(first + HopsText(hops, tail), first, h, others, Targets(hops[1..]), tail);
    st := Edge([first, h.target] + Targets(hops[1..]), a);
    assert [first] + Targets(hops) == [first, h.target] + Targets(hops[1..]);
  }

  lemma ArrowAhead(h: Hop, more: string)
    requires Gap(h.before)
    ensures var s := h.before + HopText(h, more); !StartsWith(s, IsIdentChar)
    ensures HopText(h, more) != "" && HopText(h, more)[0] == '-'
  {
    var s := h.before + HopText(h, more);
    assert s[0] == if h.before == "" then '-' else h.before[0];
  }

  lemma BareIs(s: string, key: string, tail: string, behind: string, rest: string, value: string)
    requires Identifier(s) == Ok(key, tail) && SkipWs(tail) != "" && SkipWs(tail)[0] != '-'
    requires OptionalBlock(SkipWs(tail)) == (map[], behind) && SkipWs(behind) == "=" + rest && SkipWs(rest) == value
    ensures NodeOrEdge(s) ==
      match AttrValue(value)
      case Ok(v, rest) => Ok(GraphAttrDecl(key, v), EndStatement(rest))
      case _ => Backtrack
  {
    hide AttrValue, OptionalBlock, Identifier, SkipWs, EdgeRest;
    assert ("=" + rest)[1..] == rest;
  }

  /** A block without items before `=`, if there is one. */
  lemma HollowRead(hollow: Option<Hollow>, g1: string, rest: string) returns (behind: string)
    requires Gap(g1) && (hollow.Some? ==> Gap(hollow.value.gap) && Gap(hollow.value.open))
    ensures var tail := HollowText(hollow, g1 + ("=" + rest));
      && SkipWs(tail) != "" && SkipWs(tail)[0] == (if hollow.Some? then '[' else '=') && !StartsWith(tail, IsIdentChar)
      && OptionalBlock(SkipWs(tail)) == (map[], behind) && SkipWs(behind) == "=" + rest
  {
    hide SkipWs, OptionalBlock, AttrBlock, KeyEnd;
    var after := g1 + ("=" + rest);
    GapThen(g1, "=" + rest);
    SkipWsNone("=" + rest);
    match hollow {
      case None =>
        behind := "=" + rest;
        NoBlock("=" + rest);
        EqualsStart(g1, rest);
      case Some(h) =>
        behind := after;
        HollowBlock(h.open, after);
        var block := "[" + (h.open + ("]" + after));
        GapThen(h.gap, block);
        BracketStart(h.gap, h.open + ("]" + after));
    }
  }

  lemma EqualsStart(gap: string, rest: string)
    requires Gap(gap)
    ensures !StartsWith(gap + ("=" + rest), IsIdentChar)
  {
    assert (gap + ("=" + rest))[0] == if gap == "" then '=' else gap[0];
  }

  lemma BracketStart(gap: string, rest: string)
    requires Gap(gap)
    ensures !StartsWith(gap + ("[" + rest), IsIdentChar)
  {
    assert (gap + ("[" + rest))[0] == if gap == "" then '[' else gap[0];
  }

  lemma HollowBlock(open: string, after: string)
    requires Gap(open)
    ensures OptionalBlock("[" + (open + ("]" + after))) == (map[], after)
  {
    hide AttrBlock;
    var b := Block(open, []);
    assert ItemsText([], "]" + after) == "]" + after;
    var attrs := BlockRead(b, after);
    assert forall k :: k !in attrs;
    assert attrs == map[];
  }

  lemma BareRead(key: string, hollow: Option<Hollow>, g1: string, g2: string, value: ValueForm, end: End, more: string)
    returns (st: Statement)
    requires FormOk(Bare(key, hollow, g1, g2, value, end), more) && Resumes(more)
    ensures ReadsAs(FormText(Bare(key, hollow, g1, g2, value, end), more), st, more)
    ensures FormMeans(st, Bare(key, hollow, g1, g2, value, end))
  {
    hide OneStatement, NodeOrEdge, AttrValue, SkipWs, ValueText, EndText, EndStatement, Identifier, ValueStops, ValueMeans, Written,
      HollowText, OptionalBlock, NamedBrace;
    var text := ValueText(value, EndText(end, more));
    var rest := g2 + text;
    var tail := HollowText(hollow, g1 + ("=" + rest));
    NameIs(key);
    var behind := HollowRead(hollow, g1, rest);
    ValueRead(value, EndText(end, more));
    GapThen(g2, text);
    WordFalls(key, tail);
    BareIs(key + tail, key, tail, behind, rest, text);
    EndRead(end, more);
    st := GraphAttrDecl(key, ValueMeans(value));
  }

  /** An optional name before a brace. */
  lemma NameBefore(g1: string, name: Option<string>, g2: string, inner: string)
    requires Gap(g1) && Gap(g2) && (name.Some? ==> Name(name.value))
    ensures var r := OptionalName(SkipWs(g1 + ((if name.Some? then name.value else "") + (g2 + ("{" + inner)))));
      r.0 == name && SkipWs(r.1) == "{" + inner
  {
    hide SkipWs, Identifier;
    var brace := "{" + inner;
    GapThen(g2, brace);
    match name {
      case None =>
        assert "" + (g2 + brace) == g2 + brace;
        GapThrough(g1, g2 + brace);
        NoIdent(brace);
        SkipWsNone(brace);
      case Some(id) =>
        NameIs(id);
        assert (g2 + brace)[0] == if g2 == "" then '{' else g2[0];
        GapThen(g1, id + (g2 + brace));
        IdentAt(id, g2 + brace);
    }
  }

  lemma NestedIs(s: string, rest: string, name: Option<string>, inner: string, body: seq<Statement>, after: string)
    requires s == "subgraph" + rest
    requires var r := OptionalName(SkipWs(rest)); r.0 == name && SkipWs(r.1) == "{" + inner
    requires Statements(inner) == Ok(body, "}" + after)
    ensures OneStatement(s) == Ok(Subgraph(name, body), EndStatement(after))
  {
    hide OneStatement, SubgraphStmt, NodeOrEdge, Statements, SkipWs, OptionalName, EndStatement;
    Drop("subgraph", rest);
    SubgraphBrace(s, rest, inner);
    SkipWsNone("}" + after);
    assert ("}" + after)[1..] == after;
    DispatchSubgraph(rest);
  }

  lemma CloseAhead(gap: string, more: string)
    requires Gap(gap)
    ensures Closes(gap + ("}" + more)) && SkipWs(gap + ("}" + more)) == "}" + more
  {
    hide SkipWs;
    GapThen(gap, "}" + more);
  }

  lemma FormStart(f: Form, more: string)
    requires FormOk(f, more)
    ensures StartsWith(FormText(f, more), IsIdentStart)
  {
    hide LinesText, LinesOk, TailOk, TailText, HopsOk, HopsText, BlockOk, BlockText, EndText, ValueText, ValueStops, Written;
    match f
    case Settings(kind, gap, block, end) => assert FormText(f, more)[0] == Keyword(kind)[0];
    case NodeForm(id, gap, attrs, end) => assert FormText(f, more)[0] == id[0];
    case EdgeForm(first, hops, gap, attrs, end) => assert FormText(f, more)[0] == first[0];
    case Bare(key, hollow, g1, g2, value, end) => assert FormText(f, more)[0] == key[0];
    case Nested(g1, name, g2, lines, g3, end) => assert FormText(f, more)[0] == 's';
  }

  lemma LinesResume(lines: seq<Line>, more: string)
    requires LinesOk(lines, more) && Closes(more)
    ensures Resumes(LinesText(lines, more))
  {
    hide SkipWs, FormText, FormOk;
    if lines != [] {
      var rest := LinesText(lines[1..], more);
      FormStart(lines[0].form, rest);
      GapThen(lines[0].lead, FormText(lines[0].form, rest));
    }
  }

  lemma {:induction false} FormRead(f: Form, more: string) returns (st: Statement)
    requires FormOk(f, more) && Resumes(more)
    ensures ReadsAs(FormText(f, more), st, more) && FormMeans(st, f)
    decreases f, 0
  {
    hide ReadsAs, FormText, FormMeans, FormOk, Resumes;
    match f
    case Settings(kind, gap, block, end) => st := SettingsRead(kind, gap, block, end, more);
    case NodeForm(id, gap, attrs, end) => st := NodeRead(id, gap, attrs, end, more);
    case EdgeForm(first, hops, gap, attrs, end) => st := EdgeRead(first, hops, gap, attrs, end, more);
    case Bare(key, hollow, g1, g2, value, end) => st := BareRead(key, hollow, g1, g2, value, end, more);
    case Nested(g1, name, g2, lines, g3, end) => st := NestedRead(g1, name, g2, lines, g3, end, more);
  }

  lemma {:induction false} NestedRead(g1: string, name: Option<string>, g2: string, lines: seq<Line>, g3: string, end: End, more: string)
    returns (st: Statement)
    requires FormOk(Nested(g1, name, g2, lines, g3, end), more) && Resumes(more)
    ensures ReadsAs(FormText(Nested(g1, name, g2, lines, g3, end), more), st, more)
    ensures FormMeans(st, Nested(g1, name, g2, lines, g3, end))
    decreases lines, 2
  {
    hide OneStatement, Statements, SkipWs, EndText, EndStatement, LinesText, LinesOk, LinesMean, OptionalName;
    var after := EndText(end, more);
    var inner := LinesText(lines, g3 + ("}" + after));
    CloseAhead(g3, after);
    var body := LinesRead(lines, g3 + ("}" + after));
    NameBefore(g1, name, g2, inner);
    var rest := g1 + ((if name.Some? then name.value else "") + (g2 + ("{" + inner)));
    NestedIs("subgraph" + rest, rest, name, inner, body, after);
    EndRead(end, more);
    st := Subgraph(name, body);
  }

  /** MAIN RESULT on statements. Every list of statements in every layout is
      read as what it means. */
  lemma {:induction false} LinesRead(lines: seq<Line>, more: string) returns (stmts: seq<Statement>)
    requires LinesOk(lines, more) && Closes(more)
    ensures Statements(LinesText(lines, more)) == Ok(stmts, SkipWs(more)) && LinesMean(stmts, lines)
    decreases lines, 1
  {
    hide SkipWs, Statements, FormText, FormOk, FormMeans, OneStatement, ReadsAs;
    if lines == [] {
      ListEnd(more);
      stmts := [];
    } else {
      var rest := LinesText(lines[1..], more);
      LinesResume(lines[1..], more);
      var stmts1 := LinesRead(lines[1..], more);
      var st := FormRead(lines[0].form, rest);
      FormStart(lines[0].form, rest);
      GapThrough(lines[0].lead, FormText(lines[0].form, rest));
      LineThenRest(lines[0].lead + FormText(lines[0].form, rest), FormText(lines[0].form, rest), st, rest);
      stmts := [st] + stmts1;
    }
  }

  lemma LineThenRest(s: string, text: string, st: Statement, more: string)
    requires SkipWs(s) == SkipWs(text) && StartsWith(text, IsIdentStart) && ReadsAs(text, st, more) && Statements(more).Ok?
    ensures Statements(s) == Ok([st] + Statements(more).value, Statements(more).rest)
  {
    hide SkipWs, OneStatement;
    SkipWsNone(text);
    StatementsSkipWs(s);
    StatementsSkipWs(more);
    StatementsSkipWs(OneStatement(text).rest);
  }

  // ---------------------------------------------------------------------
  // Descriptions
  // ---------------------------------------------------------------------

  lemma HeadIs(s: string, d: Document, inner: string, stmts: seq<Statement>, after: string)
    requires Gap(d.lead) && Gap(d.g1) && Name(d.name) && Gap(d.g2)
    requires s == d.lead + ("digraph" + (d.g1 + (d.name + (d.g2 + ("{" + inner)))))
    requires Statements(inner) == Ok(stmts, "}" + after)
    ensures Digraph(s) == Ok((d.name, stmts), SkipWs(after))
  {
    hide SkipWs, Identifier, Statements;
    var brace := d.g2 + ("{" + inner);
    var named := d.name + brace;
    var head := "digraph" + (d.g1 + named);
    NameIs(d.name);
    GapThen(d.lead, head);
    assert head[7..] == d.g1 + named;
    GapThen(d.g1, named);
    assert brace[0] == if d.g2 == "" then '{' else d.g2[0];
    IdentAt(d.name, brace);
    GapThen(d.g2, "{" + inner);
    assert ("{" + inner)[1..] == inner;
    StatementsSkipWs(inner);
    SkipWsNone("}" + after);
    assert ("}" + after)[1..] == after;
  }

  /** MAIN RESULT. Whatever layout a description is written in, and whatever
      comments it holds, `parse` returns the graph that its statements mean. */
  lemma DocumentRead(input: string, d: Document) returns (stmts: seq<Statement>)
    requires DocumentOk(d) && Strip(input) == DocumentText(d)
    ensures LinesMean(stmts, d.lines) && Parse(input) == Some(Graph(d.name, Merge(stmts)))
  {
    hide LinesText, LinesOk, LinesMean, Statements, Digraph, Strip, Merge;
    CloseAhead(d.g3, d.more);
    stmts := LinesRead(d.lines, d.g3 + ("}" + d.more));
    HeadIs(DocumentText(d), d, LinesText(d.lines, d.g3 + ("}" + d.more)), stmts, d.more);
  }
}
