/** Inputs on which the text round trip really fails, one for each of the
    three conditions of `TextRoundTrip`. */
module DotLimits {
  import opened Wrappers
  import opened DotAst
  import opened DotLex
  import opened DotGrammar
  import opened DotMerge
  import opened DotRoundTrip
  import opened DotComments
  import opened DotPrint
  import opened DotLexemes
  import opened DotReadBack
  import opened DotTextRoundTrip
  import opened DotSound
  import opened DotEncoding
  import opened DotTheorems

  /** A graph that holds one graph-level attribute. */
  function OneAttr(key: string, v: Value): DotGraph {
    DotGraph("G", map[key := v], map[], [], [], map[], map[])
  }

  lemma NameG()
    ensures IsIdent("G") && IsIdent("a")
  {
  }

  lemma OneAttrSerializable(key: string, v: Value)
    ensures Serializable(OneAttr(key, v))
  {
  }

  lemma OneAttrLex(key: string, v: Value)
    requires IsKey(key) && LexValue(v)
    ensures LexGraph(OneAttr(key, v))
  {
    hide IsKey, LexValue;
    NameG();
  }

  /** `statement` alone in a graph body, when the parser reads it as `st`. */
  lemma OneStatementInput(statement: string, st: Statement)
    requires Bland(statement) && Starts(statement)
    requires OneStatement(statement + "\n}\n") == Ok(st, "}\n")
    ensures Parse("digraph " + ("G" + (" {\n" + (statement + "\n}\n")))) == Some(Graph("G", Merge([st])))
  {
    hide OneStatement, Digraph, Clean, Utf8, MergeFrom, Bland;
    var body := statement + "\n}\n";
    var input := "digraph " + ("G" + (" {\n" + body));
    OneStatementClean(statement);
    StripClean(input);
    StatementThenEnd(body, st);
    NameG();
    OneStatementDigraph("G", body, [st]);
  }

  lemma OneStatementClean(statement: string)
    requires Bland(statement)
    ensures var input := "digraph " + ("G" + (" {\n" + (statement + "\n}\n"))); Clean(input) && Utf8(input) == input
  {
    hide Clean, Utf8;
    CleanEnd();
    CarryPlain("\n", "}\n", "}\n");
    assert "\n" + "}\n" == "\n}\n";
    CarryPlain(statement, "\n}\n", "\n}\n");
    CarryPlain(" {\n", statement + "\n}\n", statement + "\n}\n");
    CarryPlain("G", " {\n" + (statement + "\n}\n"), " {\n" + (statement + "\n}\n"));
    CarryPlain("digraph ", "G" + (" {\n" + (statement + "\n}\n")), "G" + (" {\n" + (statement + "\n}\n")));
  }

  lemma StatementThenEnd(body: string, st: Statement)
    requires Starts(body) && OneStatement(body) == Ok(st, "}\n")
    ensures Statements(body) == Ok([st], "}\n")
  {
    hide OneStatement, SkipWs;
    SkipWsNone(body);
    SkipWsNone("}\n");
    assert Statements("}\n") == Ok([], "}\n");
    assert [st] + [] == [st];
  }

  lemma OneStatementDigraph(name: string, body: string, stmts: seq<Statement>)
    requires IsIdent(name) && Statements(body) == Ok(stmts, "}\n")
    ensures var r := Digraph("digraph " + (name + (" {\n" + body))); r.Ok? && r.value == (name, stmts)
  {
    hide Identifier, SkipWs, Statements;
    var open := "{" + ("\n" + body);
    var named := name + (" {\n" + body);
    var s := "digraph " + named;
    assert " {\n" + body == " " + open;
    SkipWsNone(s);
    assert s[7..] == " " + named;
    SkipWsOne(' ', named);
    SkipWsNone(named);
    IdentAt(name, " " + open);
    SkipWsOne(' ', open);
    SkipWsNone(open);
    assert open[1..] == "\n" + body;
    SkipWsOne('\n', body);
    StatementsSkipWs(body);
    SkipWsNone("}\n");
  }

  // ---------------------------------------------------------------------
  // A dotted graph-level key
  // ---------------------------------------------------------------------

  lemma DottedKey()
    ensures IsKey("a.b")
  {
    NameG();
    assert "a.b" == "a" + ".b" && ".b" == "." + ("b" + "");
    assert IsIdent("b");
    DottedCons("b", "");
    QualifiedCons("a", ".b");
  }

  lemma GraphBlockRead(attrs: Attrs)
    requires LexAttrs(attrs) && FitsAll(attrs)
    ensures OneStatement("graph " + PrintBlock(attrs, "\n}\n")) == Ok(GraphAttrs(attrs), "}\n")
  {
    hide KeywordBlock, AttrBlock, SkipWs, PrintBlock, LexAttrs, FitsAll;
    var block := PrintBlock(attrs, "\n}\n");
    var s := "graph " + block;
    assert "\n" + "}\n" == "\n}\n";
    assert s == "graph" + (" " + block);
    SkipWsNone("}\n");
    SpaceBlock(attrs, "}\n");
    BlockAt(attrs, "\n}\n");
    KeywordHit("graph", block, attrs, "}\n");
    SkipWsNone(s);
  }

  /** `graph [a.b=true]` is accepted, printed as a bare `a.b=true`, and that is refused. */
  lemma DottedKeyIsRefused()
    ensures exists input :: Parse(input) == Some(OneAttr("a.b", Boolean(true)))
    ensures Parse(ToDot(OneAttr("a.b", Boolean(true)))) == None
  {
    hide OneStatement, Parse, ToDot, PrintBlock, IsKey, LexGraph, Serializable, Bland;
    DottedKey();
    var attrs: Attrs := map["a.b" := Boolean(true)];
    BlockText();
    GraphBlockRead(attrs);
    var statement := "graph [a.b=true]";
    BlandGraphBlock();
    OneStatementInput(statement, GraphAttrs(attrs));
    MergeGraphAttrs(attrs);
    assert Parse("digraph " + ("G" + (" {\n" + (statement + "\n}\n")))) == Some(OneAttr("a.b", Boolean(true)));
    OneAttrLex("a.b", Boolean(true));
    OneAttrSerializable("a.b", Boolean(true));
    PrintThenParse(OneAttr("a.b", Boolean(true)));
    assert "a.b"[1] == '.';
  }

  lemma BlandGraphBlock()
    ensures Bland("graph [a.b=true]") && Starts("graph [a.b=true]")
  {
  }

  lemma MergeGraphAttrs(attrs: Attrs)
    ensures Merge([GraphAttrs(attrs)]) == Scope(attrs, map[], [], [], map[], map[])
  {
    MergeCons(Open(map[], map[]), GraphAttrs(attrs), []);
    assert [GraphAttrs(attrs)] == [GraphAttrs(attrs)] + [];
    assert map[] + attrs == attrs;
  }

  lemma BlockText()
    ensures "graph " + PrintBlock(map["a.b" := Boolean(true)], "\n}\n") == "graph [a.b=true]" + "\n}\n"
  {
    var attrs: Attrs := map["a.b" := Boolean(true)];
    var keys := Order.Sorted(attrs.Keys);
    assert attrs.Keys == {"a.b"};
    assert |keys| == 1 && keys[0] in keys && keys[0] == "a.b";
    assert keys == ["a.b"] && keys[1..] == [];
    assert PrintAttrs(attrs, keys, "]" + "\n}\n") == "a.b" + ("=" + ("true" + ("]" + "\n}\n")));
  }

  // ---------------------------------------------------------------------
  // A duration above 64 bits of milliseconds
  // ---------------------------------------------------------------------

  lemma SecondsAt(n: nat, tail: string)
    requires n <= U64_MAX
    ensures AttrValue(Decimal(n) + ("s" + tail)) == Ok(Duration(n * 1000), tail)
  {
    hide Decimal, Numeral, Span;
    var unit := "s" + tail;
    var s := Decimal(n) + unit;
    DecimalAt(n, unit);
    DecimalDigits(n);
    assert s[0] == Decimal(n)[0];
    NoOpening(s);
    assert unit[..1] == "s" && unit[0] != 'm';
    assert s[|Decimal(n)| + 1..] == tail;
  }

  lemma SecondsDecl(n: nat)
    requires n <= U64_MAX
    ensures OneStatement("a=" + Decimal(n) + "s" + "\n}\n") == Ok(GraphAttrDecl("a", Duration(n * 1000)), "}\n")
  {
    hide OneStatement, NodeOrEdge, AttrValue, Decimal, SkipWs, Identifier, OptionalBlock;
    var value := Decimal(n) + ("s" + "\n}\n");
    var tail := "=" + value;
    assert "a=" + Decimal(n) + "s" + "\n}\n" == "a" + tail by { DeclText(Decimal(n)); }
    NameG();
    SkipWsNone(tail);
    FallsThrough("a", tail);
    SecondsAt(n, "\n}\n");
    DecimalDigits(n);
    assert value[0] == Decimal(n)[0];
    SkipWsNone(value);
    SkipWsNone("}\n");
    SkipWsOne('\n', "}\n");
    assert "\n}\n" == "\n" + "}\n";
    DeclFrom("a" + tail, "a", tail, value);
  }

  lemma DeclText(d: string)
    ensures "a=" + d + "s" + "\n}\n" == "a" + ("=" + (d + ("s" + "\n}\n")))
  {
  }

  lemma SecondsBland(n: nat)
    ensures Bland("a=" + Decimal(n) + "s") && Starts("a=" + Decimal(n) + "s")
  {
    hide Bland, Decimal;
    DecimalDigits(n);
    DigitsBland(Decimal(n));
    PiecesBland();
    BlandConcat("a=", Decimal(n));
    BlandConcat("a=" + Decimal(n), "s");
  }

  lemma PiecesBland()
    ensures Bland("a=") && Bland("s")
  {
  }

  lemma MergeDecl(key: string, v: Value)
    ensures Merge([GraphAttrDecl(key, v)]) == Scope(map[key := v], map[], [], [], map[], map[])
  {
    MergeCons(Open(map[], map[]), GraphAttrDecl(key, v), []);
    assert [GraphAttrDecl(key, v)] == [GraphAttrDecl(key, v)] + [];
    var none: Attrs := map[];
    assert none[key := v] == map[key := v];
    assert Apply(Open(none, none), GraphAttrDecl(key, v)) == Scope(map[key := v], map[], [], [], map[], map[]);
  }

  /** Any number of seconds that fits 64 bits is accepted, but from about 585
      million years on its milliseconds do not, and the printed form is refused. */
  lemma LongDurationIsRefused(seconds: nat)
    requires U64_MAX < seconds * 1000 && seconds <= U64_MAX
    ensures exists input :: Parse(input) == Some(OneAttr("a", Duration(seconds * 1000)))
    ensures Parse(ToDot(OneAttr("a", Duration(seconds * 1000)))) == None
  {
    hide OneStatement, Parse, ToDot, IsKey, LexGraph, Serializable, Bland, Decimal;
    var v := Duration(seconds * 1000);
    var statement := "a=" + Decimal(seconds) + "s";
    SecondsDecl(seconds);
    SecondsBland(seconds);
    OneStatementInput(statement, GraphAttrDecl("a", v));
    MergeDecl("a", v);
    assert Parse("digraph " + ("G" + (" {\n" + (statement + "\n}\n")))) == Some(OneAttr("a", v));
    NameG();
    IdentIsKey("a");
    OneAttrLex("a", v);
    OneAttrSerializable("a", v);
    PrintThenParse(OneAttr("a", v));
    assert !Fits(OneAttr("a", v).attrs["a"]);
  }

  // ---------------------------------------------------------------------
  // A string that is not ASCII
  // ---------------------------------------------------------------------

  /** A printed string that is not ASCII is parsed as another string, and
      printing and parsing that one changes it again. */
  lemma NonAsciiDrifts(text: string)
    requires !IsAscii(text)
    ensures var g := OneAttr("a", Str(text));
      && Parse(ToDot(g)) == Some(OneAttr("a", Str(Utf8(text)))) && Utf8(text) != text
      && Parse(ToDot(OneAttr("a", Str(Utf8(text))))) == Some(OneAttr("a", Str(Utf8(Utf8(text)))))
      && |Utf8(Utf8(text))| > |Utf8(text)| > |text|
  {
    hide Parse, ToDot, IsKey, LexGraph, Serializable, Utf8, IsAscii;
    NameG();
    IdentIsKey("a");
    StrRecoded(text);
    StrRecoded(Utf8(text));
    Utf8Length(text);
    StaysNonAscii(text);
    Utf8Length(Utf8(text));
  }

  lemma StrRecoded(text: string)
    ensures Parse(ToDot(OneAttr("a", Str(text)))) == Some(OneAttr("a", Str(Utf8(text))))
  {
    hide Parse, ToDot, IsKey, LexGraph, Serializable, Utf8;
    NameG();
    IdentIsKey("a");
    OneAttrLex("a", Str(text));
    OneAttrSerializable("a", Str(text));
    PrintThenParse(OneAttr("a", Str(text)));
    assert '.' !in "a";
    assert RecodeGraph(OneAttr("a", Str(text))) == OneAttr("a", Str(Utf8(text))) by {
      assert RecodeAttrs(map["a" := Str(text)]) == map["a" := Str(Utf8(text))];
      assert RecodeAttrs(map[]) == map[] && RecodeNodes(map[]) == map[];
    }
  }

  /** Encoding yields a byte above 127 wherever the text has such a character. */
  lemma {:induction false} StaysNonAscii(text: string)
    requires !IsAscii(text)
    ensures !IsAscii(Utf8(text))
  {
    var head, tail := Utf8Char(text[0]), Utf8(text[1..]);
    if text[0] as int >= 0x80 {
      assert Utf8(text)[0] == head[0] && head[0] as int >= 0x80;
    } else {
      assert !IsAscii(text[1..]) by {
        var i :| 0 <= i < |text| && text[i] as int >= 0x80;
        assert text[1..][i - 1] == text[i];
      }
      StaysNonAscii(text[1..]);
      var j :| 0 <= j < |tail| && tail[j] as int >= 0x80;
      assert Utf8(text)[|head| + j] == tail[j];
    }
  }
}
