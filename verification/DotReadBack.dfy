/** Reading back printed attribute blocks and statements: what comes back, and
    what does not parse at all. */
module DotReadBack {
  import opened DotAst
  import opened DotLex
  import opened DotGrammar
  import opened Order
  import opened DotEmit
  import opened DotPrint
  import opened DotLexemes

  // ---------------------------------------------------------------------
  // Attributes
  // ---------------------------------------------------------------------

  ghost predicate LexAttrs(attrs: Attrs) {
    forall k | k in attrs :: IsKey(k) && LexValue(attrs[k])
  }

  predicate FitsAll(attrs: Attrs) { forall k | k in attrs :: Fits(attrs[k]) }

  lemma FloatStart(lexeme: string)
    requires LexValue(Float(lexeme))
    ensures !IsSpace(lexeme[0])
  {
    var sign, whole, fraction := FloatParts(lexeme);
    assert lexeme[0] == if sign == "" then whole[0] else sign[0];
  }

  lemma ValueStart(v: Value)
    requires LexValue(v)
    ensures FormatValue(v) != "" && !IsSpace(FormatValue(v)[0])
  {
    match v
    case Duration(millis) => DecimalDigits(millis);
    case Integer(i) => if i >= 0 { DecimalDigits(i); }
    case Float(lexeme) => FloatStart(lexeme);
    case _ =>
  }

  lemma FormatStart(v: Value, tail: string)
    requires LexValue(v)
    ensures SkipWs(FormatValue(v) + tail) == FormatValue(v) + tail
  {
    hide FormatValue, SkipWs;
    ValueStart(v);
    SkipWsNone(FormatValue(v) + tail);
  }

  /** What `Attr` does once its key is known. */
  lemma AttrKeyed(s: string, key: string, rest: string, value: string)
    requires QualifiedId(s) == Ok(key, rest)
    requires rest != "" && rest[0] == '=' && rest[1..] == value && SkipWs(value) == value
    ensures Attr(s) == match AttrValue(value) case Ok(v, rest) => Ok((key, v), rest) case _ => Backtrack
  {
    hide QualifiedId, AttrValue, SkipWs;
    SkipWsNone(rest);
  }

  lemma AttrAt(key: string, v: Value, tail: string)
    requires IsKey(key) && LexValue(v) && ValueEnd(tail)
    ensures Attr(PrintAttr(key, v, tail)) == if Fits(v) then Ok((key, v), tail) else Backtrack
  {
    hide QualifiedId, AttrValue, SkipWs, Attr, FormatValue, IsKey, LexValue;
    var value := FormatValue(v) + tail;
    QualifiedAt(key, "=" + value);
    FormatStart(v, tail);
    ValueAt(v, tail);
    AttrKeyed(key + ("=" + value), key, "=" + value, value);
  }

  lemma AttrStart(key: string, v: Value, tail: string)
    requires IsKey(key)
    ensures StartsWith(PrintAttr(key, v, tail), IsIdentStart)
  {
    var id, rest := KeyParts(key);
  }

  /** The text between two attributes. */
  function Joined(attrs: Attrs, keys: seq<string>, more: string): string
    requires forall k | k in keys :: k in attrs
  {
    if keys == [] then more else ", " + PrintAttrs(attrs, keys, more)
  }

  lemma PrintAttrsCons(attrs: Attrs, keys: seq<string>, more: string)
    requires keys != [] && forall k | k in keys :: k in attrs
    ensures PrintAttrs(attrs, keys, more) == PrintAttr(keys[0], attrs[keys[0]], Joined(attrs, keys[1..], more))
  {
    if |keys| == 1 {
      assert keys[1..] == [];
    }
  }

  lemma SeparatorAt(s: string)
    requires StartsWith(s, IsIdentStart)
    ensures SkipSeparator(", " + s) == s
  {
    hide SkipWs;
    var rest := [' '] + s;
    assert ", " + s == [','] + rest;
    SkipWsNone([','] + rest);
    assert ([','] + rest)[1..] == rest;
    SkipWsOne(' ', s);
    SkipWsNone(s);
  }

  /** `acc` extended with the attributes of `keys`, in that order. */
  function Collect(acc: Attrs, attrs: Attrs, keys: seq<string>): Attrs
    requires forall k | k in keys :: k in attrs
    decreases |keys|
  {
    if keys == [] then acc else Collect(acc[keys[0] := attrs[keys[0]]], attrs, keys[1..])
  }

  lemma {:induction false} CollectAll(acc: Attrs, attrs: Attrs, keys: seq<string>)
    requires forall k | k in keys :: k in attrs
    ensures Collect(acc, attrs, keys) == acc + Picked(attrs, keys)
    decreases |keys|
  {
    if keys == [] {
      assert acc + Picked(attrs, keys) == acc;
    } else {
      CollectAll(acc[keys[0] := attrs[keys[0]]], attrs, keys[1..]);
      assert acc[keys[0] := attrs[keys[0]]] + Picked(attrs, keys[1..]) == acc + Picked(attrs, keys);
    }
  }

  /** One printed attribute behind a separator: read, or left where it is. */
  lemma AttrsFromStep(acc: Attrs, key: string, v: Value, more: string)
    requires IsKey(key) && LexValue(v) && ValueEnd(more)
    ensures AttrsFrom(acc, ", " + PrintAttr(key, v, more))
         == if Fits(v) then AttrsFrom(acc[key := v], more) else (acc, PrintAttr(key, v, more))
  {
    hide Attr, SkipSeparator, PrintAttr, IsKey, LexValue, Fits, ValueEnd;
    AttrStart(key, v, more);
    var s := PrintAttr(key, v, more);
    SeparatorAt(s);
    AttrAt(key, v, more);
  }

  lemma AttrsFromEnd(acc: Attrs, tail: string)
    ensures AttrsFrom(acc, "]" + tail) == (acc, "]" + tail)
  {
    hide Attr, SkipSeparator;
    EndIsNoAttr("]" + tail);
  }

  lemma EndIsNoAttr(s: string)
    requires s != "" && s[0] == ']'
    ensures SkipSeparator(s) == s && Attr(s) == Backtrack
  {
    hide SkipWs, AttrValue, Span, DottedLen;
    SkipWsNone(s);
  }

  lemma JoinedEnd(attrs: Attrs, keys: seq<string>, more: string)
    requires forall k | k in keys :: k in attrs
    requires ValueEnd(more)
    ensures ValueEnd(Joined(attrs, keys, more))
  {
  }

  predicate FitKeys(attrs: Attrs, keys: seq<string>)
    requires forall k | k in keys :: k in attrs
  {
    keys == [] || (Fits(attrs[keys[0]]) && FitKeys(attrs, keys[1..]))
  }

  lemma {:induction false} FitKeysAll(attrs: Attrs, keys: seq<string>)
    requires forall k | k in keys :: k in attrs
    ensures FitKeys(attrs, keys) <==> forall k | k in keys :: Fits(attrs[k])
  {
    if keys != [] {
      FitKeysAll(attrs, keys[1..]);
      assert forall k :: k in keys <==> k == keys[0] || k in keys[1..];
    }
  }

  /** The remaining attributes of a block are all read, or reading stops at the
      first one that does not fit. */
  lemma {:induction false} AttrsFromAt(acc: Attrs, attrs: Attrs, keys: seq<string>, tail: string)
    requires LexAttrs(attrs) && forall k | k in keys :: k in attrs
    ensures var r := AttrsFrom(acc, Joined(attrs, keys, "]" + tail));
      if FitKeys(attrs, keys) then r == (Collect(acc, attrs, keys), "]" + tail)
      else StartsWith(r.1, IsIdentStart)
    decreases |keys|
  {
    hide Attr, SkipSeparator, PrintAttr, IsKey, LexValue, Fits;
    if keys == [] {
      AttrsFromEnd(acc, tail);
    } else {
      var k := keys[0];
      var more := Joined(attrs, keys[1..], "]" + tail);
      PrintAttrsCons(attrs, keys, "]" + tail);
      JoinedEnd(attrs, keys[1..], "]" + tail);
      AttrsFromStep(acc, k, attrs[k], more);
      if Fits(attrs[k]) {
        AttrsFromAt(acc[k := attrs[k]], attrs, keys[1..], tail);
      } else {
        AttrStart(k, attrs[k], more);
      }
    }
  }

  lemma AttrsOfStep(key: string, v: Value, more: string)
    requires IsKey(key) && LexValue(v) && ValueEnd(more)
    ensures AttrsOf(PrintAttr(key, v, more))
         == if Fits(v) then AttrsFrom(map[key := v], more) else (map[], PrintAttr(key, v, more))
  {
    hide Attr, PrintAttr, AttrsFrom;
    AttrAt(key, v, more);
  }

  lemma AttrsOfAt(attrs: Attrs, keys: seq<string>, tail: string)
    requires LexAttrs(attrs) && forall k | k in keys :: k in attrs
    ensures var r := AttrsOf(PrintAttrs(attrs, keys, "]" + tail));
      if FitKeys(attrs, keys) then r == (Collect(map[], attrs, keys), "]" + tail)
      else StartsWith(r.1, IsIdentStart)
  {
    hide Attr, PrintAttr, AttrsFrom, IsKey, LexValue, Fits;
    if keys == [] {
      EndIsNoAttr("]" + tail);
    } else {
      var k := keys[0];
      var more := Joined(attrs, keys[1..], "]" + tail);
      PrintAttrsCons(attrs, keys, "]" + tail);
      JoinedEnd(attrs, keys[1..], "]" + tail);
      AttrsOfStep(k, attrs[k], more);
      if Fits(attrs[k]) {
        AttrsFromAt(map[k := attrs[k]], attrs, keys[1..], tail);
        assert map[k := attrs[k]] == map[][k := attrs[k]];
      } else {
        AttrStart(k, attrs[k], more);
      }
    }
  }

  lemma AttrsStart(attrs: Attrs, keys: seq<string>, tail: string)
    requires LexAttrs(attrs) && forall k | k in keys :: k in attrs
    ensures SkipWs(PrintAttrs(attrs, keys, "]" + tail)) == PrintAttrs(attrs, keys, "]" + tail)
  {
    hide PrintAttr, IsKey, LexValue, SkipWs;
    if keys != [] {
      PrintAttrsCons(attrs, keys, "]" + tail);
      AttrStart(keys[0], attrs[keys[0]], Joined(attrs, keys[1..], "]" + tail));
    }
    SkipWsNone(PrintAttrs(attrs, keys, "]" + tail));
  }

  /** How a block ends, given what its attributes are. */
  lemma BlockEnd(body: string, attrs: Attrs, tail: string)
    requires SkipWs(body) == body
    ensures AttrsOf(body) == (attrs, "]" + tail) ==> AttrBlock("[" + body) == Ok(attrs, tail)
    ensures StartsWith(AttrsOf(body).1, IsIdentStart) ==> AttrBlock("[" + body) == Backtrack
  {
    hide SkipWs, AttrsOf;
    assert ("[" + body)[1..] == body;
    assert ("]" + tail)[1..] == tail;
    SkipWsNone("]" + tail);
    if StartsWith(AttrsOf(body).1, IsIdentStart) {
      SkipWsNone(AttrsOf(body).1);
    }
  }

  /** MAIN RESULT on blocks. A printed block is read back as the same
      attributes exactly when every value fits. */
  lemma BlockAt(attrs: Attrs, tail: string)
    requires LexAttrs(attrs)
    ensures AttrBlock(PrintBlock(attrs, tail)) == if FitsAll(attrs) then Ok(attrs, tail) else Backtrack
  {
    hide AttrsOf, PrintAttrs, AttrBlock, LexAttrs, FitsAll, Collect;
    var keys := Sorted(attrs.Keys);
    AttrsStart(attrs, keys, tail);
    AttrsOfAt(attrs, keys, tail);
    CollectSorted(attrs);
    BlockEnd(PrintAttrs(attrs, keys, "]" + tail), attrs, tail);
  }

  lemma CollectSorted(attrs: Attrs)
    ensures Collect(map[], attrs, Sorted(attrs.Keys)) == attrs
    ensures FitKeys(attrs, Sorted(attrs.Keys)) <==> FitsAll(attrs)
  {
    hide Collect, Fits, FitKeys;
    var keys := Sorted(attrs.Keys);
    CollectAll(map[], attrs, keys);
    AllPicked(attrs, keys);
    FitKeysAll(attrs, keys);
  }

  // ---------------------------------------------------------------------
  // Statements
  // ---------------------------------------------------------------------

  predicate IsKeyword(id: string) { id == "graph" || id == "node" || id == "edge" }

  /** The statements that the serializer prints for a parsed graph. */
  ghost predicate Printed(st: Statement) {
    match st
    case GraphAttrs(_) => false
    case NodeDefaults(attrs) => LexAttrs(attrs)
    case EdgeDefaults(attrs) => LexAttrs(attrs)
    case Node(id, attrs) => IsIdent(id) && LexAttrs(attrs) && (attrs != map[] ==> !IsKeyword(id))
    case Edge(chain, attrs) => |chain| == 2 && IsIdent(chain[0]) && IsIdent(chain[1]) && LexAttrs(attrs)
    case Subgraph(name, body) => (name.Some? ==> IsIdent(name.value)) && forall st | st in body :: Printed(st)
    case GraphAttrDecl(key, value) => IsKey(key) && LexValue(value)
  }

  /** The statements that can be read back: durations fit, bare keys have no dot. */
  ghost predicate Readable(st: Statement) {
    match st
    case GraphAttrs(attrs) => FitsAll(attrs)
    case NodeDefaults(attrs) => FitsAll(attrs)
    case EdgeDefaults(attrs) => FitsAll(attrs)
    case Node(_, attrs) => FitsAll(attrs)
    case Edge(_, attrs) => FitsAll(attrs)
    case Subgraph(_, body) => forall st | st in body :: Readable(st)
    case GraphAttrDecl(key, value) => IsIdent(key) && Fits(value)
  }

  /** What follows a statement: another one, or the end of the body. */
  predicate Resumes(more: string) {
    var t := SkipWs(more);
    t != "" && (IsIdentStart(t[0]) || t[0] == '}')
  }

  predicate Closes(more: string) {
    var t := SkipWs(more);
    t != "" && t[0] == '}'
  }

  /** Input no statement can start with. */
  lemma DeadStart(s: string)
    requires s != "" && !IsSpace(s[0]) && !IsIdentStart(s[0]) && s[0] != '}'
    ensures Statements(s).IsFailure()
  {
    hide Span, AttrsOf, SkipWs, AttrBlock, EdgeRest, OptionalBlock;
    SkipWsNone(s);
    assert KeywordBlock(s, "graph").Backtrack? && KeywordBlock(s, "node").Backtrack? && KeywordBlock(s, "edge").Backtrack?;
    assert SubgraphStmt(s).Backtrack?;
  }

  lemma Drop(a: string, b: string)
    ensures (a + b)[|a|..] == b
  {
  }

  /** What follows a printed statement's own line. */
  lemma AfterLine(more: string)
    requires Resumes(more)
    ensures SkipWs("\n" + more) == SkipWs(more) && SkipWs(SkipWs(more)) == SkipWs(more)
    ensures SkipChar(SkipWs(more), ';') == SkipWs(more)
    ensures OptionalBlock(SkipWs(more)) == (map[], SkipWs(more))
  {
    hide SkipWs, OptionalBlock;
    SkipWsOne('\n', more);
    SkipWsTwice(more);
    NoBlock(SkipWs(more));
  }

  lemma NoBlock(s: string)
    requires s == "" || s[0] != '['
    ensures OptionalBlock(s) == (map[], s)
  {
    hide AttrsOf, SkipWs;
  }

  // A statement that starts with the word `id`

  /** A keyword block is not found where another word, or no `[`, follows. */
  lemma KeywordMiss(keyword: string, id: string, tail: string)
    requires IsIdent(keyword) && IsIdent(id) && !StartsWith(tail, IsIdentChar)
    requires id == keyword ==> SkipWs(tail) == "" || SkipWs(tail)[0] != '['
    ensures KeywordBlock(id + tail, keyword) == Backtrack
  {
    hide AttrBlock, SkipWs;
    if keyword <= id + tail {
      PrefixOfWord(keyword, id, tail);
      var rest := (id + tail)[|keyword|..];
      if keyword == id {
        Drop(id, tail);
        NoBlockAt(SkipWs(tail));
      } else {
        NotABlock(rest);
      }
    }
  }

  lemma NotABlock(s: string)
    requires StartsWith(s, IsIdentChar)
    ensures AttrBlock(SkipWs(s)) == Backtrack
  {
    hide SkipWs, AttrsOf;
    SkipWsNone(s);
  }

  lemma NoBlockAt(s: string)
    requires s == "" || s[0] != '['
    ensures AttrBlock(s) == Backtrack
  {
    hide AttrsOf, SkipWs;
  }

  /** A word that starts the input is a part of the first identifier. */
  lemma PrefixOfWord(word: string, id: string, tail: string)
    requires All(word, IsIdentChar) && !StartsWith(tail, IsIdentChar) && word <= id + tail
    ensures |word| <= |id| && word == id[..|word|] && (id + tail)[|word|..] == id[|word|..] + tail
    ensures |word| < |id| ==> (id + tail)[|word|] == id[|word|]
    ensures |word| == |id| ==> word == id
  {
    assert forall i | 0 <= i < |word| :: word[i] == (id + tail)[i];
    assert forall i | 0 <= i < |tail| :: (id + tail)[|id| + i] == tail[i];
    assert |word| <= |id|;
  }

  lemma SubgraphMiss(id: string, tail: string)
    requires IsIdent(id) && !StartsWith(tail, IsIdentChar)
    requires SkipWs(tail) != "" && !IsIdentStart(SkipWs(tail)[0]) && SkipWs(tail)[0] != '{'
    ensures SubgraphStmt(id + tail) == Backtrack
  {
    hide SubgraphStmt, OptionalName, SkipWs;
    if "subgraph" <= id + tail {
      PrefixOfWord("subgraph", id, tail);
      NameThen(id[8..], tail);
      NoBrace(id + tail, id[8..] + tail);
    } else {
      NotSubgraph(id + tail);
    }
  }

  lemma NotSubgraph(s: string)
    requires !("subgraph" <= s)
    ensures SubgraphStmt(s) == Backtrack
  {
    hide Statements, OptionalName, EndStatement, SkipWs;
  }

  lemma NoBrace(s: string, rest: string)
    requires "subgraph" <= s && rest == s[8..]
    requires var s1 := SkipWs(OptionalName(SkipWs(rest)).1); s1 == "" || s1[0] != '{'
    ensures SubgraphStmt(s) == Backtrack
  {
    hide Statements, OptionalName, EndStatement;
  }

  lemma NoIdent(s: string)
    requires !StartsWith(s, IsIdentStart)
    ensures Identifier(s) == Backtrack
  {
  }

  /** After `subgraph`, the rest `part` of a word and `tail`: the name is `part`
      or nothing, and what follows it starts as `tail` does or with a digit. */
  lemma NameThen(part: string, tail: string)
    requires All(part, IsIdentChar) && !StartsWith(tail, IsIdentChar)
    requires SkipWs(tail) != "" && !IsIdentStart(SkipWs(tail)[0])
    ensures var name := OptionalName(SkipWs(part + tail));
      if part == "" || IsIdent(part) then SkipWs(name.1) == SkipWs(tail)
      else name.1 == part + tail && SkipWs(name.1) == part + tail && IsDigit(part[0])
  {
    hide Identifier, SkipWs;
    SkipWsTwice(tail);
    if part == "" {
      assert part + tail == tail;
      NoIdent(SkipWs(tail));
    } else {
      SkipWsNone(part + tail);
      if IsIdent(part) {
        IdentAt(part, tail);
      } else {
        assert (part + tail)[0] == part[0];
        NoIdent(part + tail);
      }
    }
  }

  /** Where only a node, an edge or a bare attribute can start. */
  predicate PlainTail(id: string, tail: string) {
    && !StartsWith(tail, IsIdentChar)
    && SkipWs(tail) != "" && !IsIdentStart(SkipWs(tail)[0]) && SkipWs(tail)[0] != '{'
    && (SkipWs(tail)[0] == '[' ==> !IsKeyword(id))
  }

  lemma FallsThrough(id: string, tail: string)
    requires IsIdent(id) && PlainTail(id, tail)
    ensures OneStatement(id + tail) == NodeOrEdge(id + tail)
    ensures Identifier(id + tail) == Ok(id, tail)
  {
    hide OneStatement, NodeOrEdge, KeywordBlock, SubgraphStmt, Identifier, SkipWs;
    KeywordMiss("graph", id, tail);
    KeywordMiss("node", id, tail);
    KeywordMiss("edge", id, tail);
    SubgraphMiss(id, tail);
    IdentAt(id, tail);
    DispatchWord(id + tail);
  }

  /** A statement that starts with no keyword block. */
  lemma DispatchWord(s: string)
    requires s != "" && !IsSpace(s[0])
    requires KeywordBlock(s, "graph") == KeywordBlock(s, "node") == KeywordBlock(s, "edge") == Backtrack
    ensures OneStatement(s) ==
      match SubgraphStmt(s) case Ok(st, rest) => Ok(st, rest) case Cut => Cut case Backtrack => NodeOrEdge(s)
  {
    hide KeywordBlock, SubgraphStmt, NodeOrEdge, SkipWs;
    SkipWsNone(s);
  }

  // What each kind of statement is read as

  lemma ReadDecl(key: string, v: Value, more: string)
    requires IsIdent(key) && LexValue(v) && Resumes(more)
    ensures OneStatement(PrintAttr(key, v, "\n" + more))
         == if Fits(v) then Ok(GraphAttrDecl(key, v), SkipWs(more)) else Backtrack
  {
    hide OneStatement, NodeOrEdge, AttrValue, FormatValue, SkipWs, Identifier, OptionalBlock, LexValue;
    var value := FormatValue(v) + ("\n" + more);
    var tail := "=" + value;
    SkipWsNone(tail);
    FallsThrough(key, tail);
    FormatStart(v, "\n" + more);
    ValueAt(v, "\n" + more);
    AfterLine(more);
    DeclFrom(key + tail, key, tail, value);
  }

  lemma DeclFrom(s: string, key: string, tail: string, value: string)
    requires Identifier(s) == Ok(key, tail)
    requires tail != "" && tail[0] == '=' && tail[1..] == value && SkipWs(value) == value
    ensures NodeOrEdge(s) ==
      match AttrValue(value)
      case Ok(v, rest) => Ok(GraphAttrDecl(key, v), EndStatement(rest))
      case _ => Backtrack
  {
    hide AttrValue, OptionalBlock, Identifier, SkipWs, EdgeRest;
    SkipWsNone(tail);
    NoBlock(tail);
  }

  /** A bare word read as a node without attributes, leaving what follows it. */
  lemma BareWord(s: string, id: string, tail: string)
    requires Identifier(s) == Ok(id, tail)
    requires SkipWs(tail) != "" && SkipWs(tail)[0] != '-' && SkipWs(tail)[0] != '='
    requires OptionalBlock(SkipWs(tail)) == (map[], SkipWs(tail))
    ensures NodeOrEdge(s) == Ok(Node(id, map[]), SkipChar(SkipWs(tail), ';'))
  {
    hide OptionalBlock, Identifier, SkipWs, EdgeRest, AttrValue;
    SkipWsTwice(tail);
  }

  lemma ReadBareNode(id: string, more: string)
    requires IsIdent(id)
    ensures OneStatement(id + (";\n" + more)) == Ok(Node(id, map[]), "\n" + more)
  {
    hide OneStatement, NodeOrEdge, OptionalBlock, Identifier, SkipWs;
    var tail := ";\n" + more;
    SkipWsNone(tail);
    FallsThrough(id, tail);
    NoBlock(tail);
    BareWord(id + tail, id, tail);
    assert tail[1..] == "\n" + more;
  }

  lemma SpaceBlock(attrs: Attrs, more: string)
    requires LexAttrs(attrs)
    ensures var s := " " + PrintBlock(attrs, "\n" + more);
      && SkipWs(s) == PrintBlock(attrs, "\n" + more) && SkipWs(s) != "" && SkipWs(s)[0] == '['
      && !StartsWith(s, IsIdentChar)
      && OptionalBlock(SkipWs(s)) == if FitsAll(attrs) then (attrs, "\n" + more) else (map[], SkipWs(s))
  {
    hide SkipWs, AttrBlock, LexAttrs, FitsAll;
    SkipWsOne(' ', PrintBlock(attrs, "\n" + more));
    SkipWsNone(PrintBlock(attrs, "\n" + more));
    BlockAt(attrs, "\n" + more);
  }

  lemma NodeFrom(s: string, id: string, tail: string, attrs: Attrs, rest: string)
    requires Identifier(s) == Ok(id, tail)
    requires SkipWs(tail) != "" && SkipWs(tail)[0] == '['
    requires OptionalBlock(SkipWs(tail)) == (attrs, rest) && attrs != map[]
    ensures NodeOrEdge(s) == Ok(Node(id, attrs), SkipChar(SkipWs(rest), ';'))
  {
    hide OptionalBlock, Identifier, SkipWs, EdgeRest, AttrValue;
  }

  /** A node with attributes; one that does not fit leaves its block unread. */
  lemma ReadNode(id: string, attrs: Attrs, more: string)
    requires IsIdent(id) && LexAttrs(attrs) && attrs != map[] && !IsKeyword(id) && Resumes(more)
    ensures var r := OneStatement(id + (" " + PrintBlock(attrs, "\n" + more)));
      if FitsAll(attrs) then r == Ok(Node(id, attrs), SkipWs(more))
      else r.Ok? && r.rest != "" && r.rest[0] == '['
  {
    hide OneStatement, NodeOrEdge, OptionalBlock, Identifier, SkipWs, PrintBlock, LexAttrs, FitsAll;
    var tail := " " + PrintBlock(attrs, "\n" + more);
    SpaceBlock(attrs, more);
    FallsThrough(id, tail);
    if FitsAll(attrs) {
      NodeFrom(id + tail, id, tail, attrs, "\n" + more);
      AfterLine(more);
    } else {
      BareWord(id + tail, id, tail);
    }
  }

  // Defaults blocks

  lemma KeywordHit(keyword: string, block: string, attrs: Attrs, more: string)
    requires AttrBlock(block) == Ok(attrs, "\n" + more) && SkipWs(" " + block) == block && Resumes(more)
    ensures KeywordBlock(keyword + (" " + block), keyword) == Ok(attrs, SkipWs(more))
  {
    hide AttrBlock, SkipWs, OptionalBlock;
    var tail := " " + block;
    var s := keyword + tail;
    assert keyword <= s;
    Drop(keyword, tail);
    assert s[|keyword|..] == tail;
    AfterLine(more);
  }

  /** Words with different first letters. */
  lemma OtherKeyword(keyword: string, s: string)
    requires keyword != "" && s != "" && keyword[0] != s[0]
    ensures KeywordBlock(s, keyword) == Backtrack
  {
    hide AttrBlock, SkipWs, EndStatement;
  }

  lemma DispatchNode(s: string)
    requires s != "" && s[0] == 'n' && KeywordBlock(s, "node").Ok?
    ensures OneStatement(s) == Ok(NodeDefaults(KeywordBlock(s, "node").value), KeywordBlock(s, "node").rest)
  {
    hide KeywordBlock, SkipWs, SubgraphStmt, NodeOrEdge;
    SkipWsNone(s);
    OtherKeyword("graph", s);
  }

  lemma DispatchEdge(s: string)
    requires s != "" && s[0] == 'e' && KeywordBlock(s, "edge").Ok?
    ensures OneStatement(s) == Ok(EdgeDefaults(KeywordBlock(s, "edge").value), KeywordBlock(s, "edge").rest)
  {
    hide KeywordBlock, SkipWs, SubgraphStmt, NodeOrEdge;
    SkipWsNone(s);
    OtherKeyword("graph", s);
    OtherKeyword("node", s);
  }

  /** `node [..]` */
  lemma ReadNodeDefaults(attrs: Attrs, more: string)
    requires LexAttrs(attrs) && Resumes(more)
    ensures var r := OneStatement("node " + PrintBlock(attrs, "\n" + more));
      if FitsAll(attrs) then r == Ok(NodeDefaults(attrs), SkipWs(more))
      else r.Ok? && r.rest != "" && r.rest[0] == '['
  {
    hide OneStatement, KeywordBlock, AttrBlock, OptionalBlock, SkipWs, PrintBlock, LexAttrs, FitsAll;
    var block := PrintBlock(attrs, "\n" + more);
    assert "node " + block == "node" + (" " + block);
    if FitsAll(attrs) {
      SpaceBlock(attrs, more);
      BlockAt(attrs, "\n" + more);
      KeywordHit("node", block, attrs, more);
      DispatchNode("node" + (" " + block));
    } else {
      UnreadDefaults("node", attrs, more);
    }
  }

  /** `edge [..]` */
  lemma ReadEdgeDefaults(attrs: Attrs, more: string)
    requires LexAttrs(attrs) && Resumes(more)
    ensures var r := OneStatement("edge " + PrintBlock(attrs, "\n" + more));
      if FitsAll(attrs) then r == Ok(EdgeDefaults(attrs), SkipWs(more))
      else r.Ok? && r.rest != "" && r.rest[0] == '['
  {
    hide OneStatement, KeywordBlock, AttrBlock, OptionalBlock, SkipWs, PrintBlock, LexAttrs, FitsAll;
    var block := PrintBlock(attrs, "\n" + more);
    assert "edge " + block == "edge" + (" " + block);
    if FitsAll(attrs) {
      SpaceBlock(attrs, more);
      BlockAt(attrs, "\n" + more);
      KeywordHit("edge", block, attrs, more);
      DispatchEdge("edge" + (" " + block));
    } else {
      UnreadDefaults("edge", attrs, more);
    }
  }

  /** A defaults block that does not fit is read as a node named like the keyword. */
  lemma UnreadDefaults(keyword: string, attrs: Attrs, more: string)
    requires keyword == "node" || keyword == "edge"
    requires LexAttrs(attrs) && !FitsAll(attrs)
    ensures var r := OneStatement(keyword + (" " + PrintBlock(attrs, "\n" + more)));
      r.Ok? && r.rest != "" && r.rest[0] == '['
  {
    hide OneStatement, NodeOrEdge, SubgraphStmt, Identifier, KeywordBlock, AttrBlock, OptionalBlock, SkipWs, PrintBlock,
      LexAttrs, FitsAll;
    var block := PrintBlock(attrs, "\n" + more);
    var tail := " " + block;
    var s := keyword + tail;
    SpaceBlock(attrs, more);
    BlockAt(attrs, "\n" + more);
    KeywordUnread(keyword, block);
    OtherKeyword("graph", s);
    OtherKeyword(if keyword == "node" then "edge" else "node", s);
    SubgraphMiss(keyword, tail);
    DispatchWord(s);
    IdentAt(keyword, tail);
    BareWord(s, keyword, tail);
  }

  lemma KeywordUnread(keyword: string, block: string)
    requires AttrBlock(block) == Backtrack && SkipWs(" " + block) == block
    ensures KeywordBlock(keyword + (" " + block), keyword) == Backtrack
  {
    hide AttrBlock, SkipWs, EndStatement;
    Drop(keyword, " " + block);
  }

  // Edges

  lemma ChainEnds(s: string)
    requires SkipWs(s) == "" || SkipWs(s)[0] != '-'
    ensures ChainFrom(s) == Ok([], SkipWs(s))
  {
    hide SkipWs, Identifier;
  }

  lemma EdgeFrom(first: string, second: string, tail: string)
    requires IsIdent(first) && IsIdent(second) && !StartsWith(tail, IsIdentChar)
    requires SkipWs(tail) == "" || SkipWs(tail)[0] != '-'
    ensures var block := OptionalBlock(SkipWs(tail));
      NodeOrEdge(first + (" -> " + (second + tail))) == Ok(Edge([first, second], block.0), EndStatement(block.1))
  {
    hide SkipWs, Identifier, OptionalBlock, ChainFrom, EndStatement, AttrValue;
    var target := second + tail;
    var arrow := "->" + (" " + target);
    assert " -> " + target == " " + arrow;
    SkipWsOne(' ', arrow);
    SkipWsNone(arrow);
    IdentAt(first, " -> " + target);
    assert arrow[2..] == " " + target;
    SkipWsOne(' ', target);
    SkipWsNone(target);
    IdentAt(second, tail);
    ChainEnds(tail);
    SkipWsTwice(tail);
    assert [first, second] + [] == [first, second];
  }

  lemma PrintPair(first: string, second: string, more: string)
    ensures PrintChain([first, second], more) == first + (" -> " + (second + more))
  {
    assert [first, second][1..] == [second];
    assert PrintChain([second], more) == second + more;
  }

  lemma ArrowIsPlain(id: string, s: string)
    ensures PlainTail(id, " -> " + s)
  {
    hide SkipWs;
    assert " -> " + s == " " + ("-> " + s);
    SkipWsOne(' ', "-> " + s);
    SkipWsNone("-> " + s);
  }

  /** An edge; attributes that do not fit stay unread. */
  lemma ReadEdge(first: string, second: string, attrs: Attrs, more: string)
    requires IsIdent(first) && IsIdent(second) && LexAttrs(attrs) && Resumes(more)
    ensures var r := OneStatement(PrintChain([first, second],
        if attrs == map[] then "\n" + more else " " + PrintBlock(attrs, "\n" + more)));
      if FitsAll(attrs) then r == Ok(Edge([first, second], attrs), SkipWs(more))
      else r.Ok? && r.rest != "" && r.rest[0] == '['
  {
    hide OneStatement, NodeOrEdge, Identifier, OptionalBlock, SkipWs, PrintBlock, PrintChain, LexAttrs, PlainTail;
    var tail := if attrs == map[] then "\n" + more else " " + PrintBlock(attrs, "\n" + more);
    PrintPair(first, second, tail);
    ArrowIsPlain(first, second + tail);
    FallsThrough(first, " -> " + (second + tail));
    AfterLine(more);
    if attrs != map[] {
      SpaceBlock(attrs, more);
      SkipWsNone(PrintBlock(attrs, "\n" + more));
    }
    EdgeFrom(first, second, tail);
  }
}
