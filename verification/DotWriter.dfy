/** The serializer as it runs: every writer pushes onto one output string
    (crates/attractor-dot/src/serializer.rs:21-246). */
module DotWriter {
  import opened Wrappers
  import opened DotAst
  import opened Order
  import opened DotEmit
  import opened DotPrint

  // ---------------------------------------------------------------------
  // Printers only append
  // ---------------------------------------------------------------------

  lemma {:induction false} IndentAppend(depth: nat, more: string)
    ensures Indent(depth, more) == Indent(depth, "") + more
  {
    if depth > 0 {
      IndentAppend(depth - 1, more);
      assert "    " + (Indent(depth - 1, "") + more) == "    " + Indent(depth - 1, "") + more;
    }
  }

  lemma AttrAppend(key: string, v: Value, more: string)
    ensures PrintAttr(key, v, more) == key + "=" + FormatValue(v) + more
    ensures PrintAttr(key, v, "") == key + "=" + FormatValue(v)
  {
    hide FormatValue;
    assert FormatValue(v) + "" == FormatValue(v);
    assert key + ("=" + (FormatValue(v) + more)) == key + "=" + FormatValue(v) + more;
    assert key + ("=" + FormatValue(v)) == key + "=" + FormatValue(v);
  }

  lemma {:induction false} AttrsAppend(attrs: Attrs, keys: seq<string>, more: string)
    requires forall k | k in keys :: k in attrs
    ensures PrintAttrs(attrs, keys, more) == PrintAttrs(attrs, keys, "") + more
    decreases |keys|
  {
    hide PrintAttr, FormatValue;
    if keys != [] {
      var key, v := keys[0], attrs[keys[0]];
      var t, t' := PrintAttrs(attrs, keys[1..], more), PrintAttrs(attrs, keys[1..], "");
      AttrsAppend(attrs, keys[1..], more);
      var sep := if |keys| == 1 then "" else ", ";
      AttrAppend(key, v, sep + t);
      AttrAppend(key, v, sep + t');
      var text := key + "=" + FormatValue(v);
      assert text + (sep + (t' + more)) == text + (sep + t') + more;
      assert "" + t == t && "" + t' == t';
    }
  }

  lemma BlockAppend(attrs: Attrs, more: string)
    ensures PrintBlock(attrs, more) == "[" + PrintAttrs(attrs, Sorted(attrs.Keys), "") + "]" + more
  {
    hide PrintAttrs;
    var keys := Sorted(attrs.Keys);
    AttrsAppend(attrs, keys, "]" + more);
    var t := PrintAttrs(attrs, keys, "");
    assert "[" + (t + ("]" + more)) == "[" + t + "]" + more;
  }

  /** The text of a block without what follows it. */
  function Block(attrs: Attrs): string { "[" + PrintAttrs(attrs, Sorted(attrs.Keys), "") + "]" }

  lemma {:induction false} ChainAppend(chain: seq<string>, more: string)
    ensures PrintChain(chain, more) == PrintChain(chain, "") + more
    decreases |chain|
  {
    if |chain| > 1 {
      ChainAppend(chain[1..], more);
      assert chain[0] + (" -> " + (PrintChain(chain[1..], "") + more)) == chain[0] + (" -> " + PrintChain(chain[1..], "")) + more;
    }
  }

  lemma Assoc3(a: string, b: string, c: string)
    ensures a + (b + c) == a + b + c
  {
  }

  lemma {:induction false} PrintAppend(st: Statement, depth: nat, more: string)
    ensures Print(st, depth, more) == Print(st, depth, "") + more
    decreases st, 0
  {
    hide PrintBlock, PrintAttr, PrintChain, Indent, PrintAll, PrintName;
    match st {
      case GraphAttrs(attrs) => LineAppend(depth, "graph ", attrs, more);
      case NodeDefaults(attrs) => LineAppend(depth, "node ", attrs, more);
      case EdgeDefaults(attrs) => LineAppend(depth, "edge ", attrs, more);
      case Node(id, attrs) =>
        if attrs == map[] {
          IndentAppend2(depth, id + (";\n" + more), id + (";\n" + ""), more);
        } else {
          LineAppend(depth, id + " ", attrs, more);
          Assoc3(id, " ", PrintBlock(attrs, "\n" + more));
          Assoc3(id, " ", PrintBlock(attrs, "\n" + ""));
        }
      case Edge(chain, attrs) => EdgeAppend(depth, chain, attrs, more);
      case Subgraph(name, body) => SubgraphAppend(depth, name, body, more);
      case GraphAttrDecl(key, value) => DeclAppend(depth, key, value, more);
    }
  }

  lemma IndentAppend2(depth: nat, t: string, t': string, more: string)
    requires t == t' + more
    ensures Indent(depth, t) == Indent(depth, t') + more
  {
    hide Indent;
    IndentAppend(depth, t);
    IndentAppend(depth, t');
    Assoc3(Indent(depth, ""), t', more);
  }

  lemma LineAppend(depth: nat, head: string, attrs: Attrs, more: string)
    ensures Indent(depth, head + PrintBlock(attrs, "\n" + more)) == Indent(depth, head + PrintBlock(attrs, "\n" + "")) + more
  {
    hide Indent, PrintBlock;
    TailAppend(attrs, more);
    Assoc3(head, PrintBlock(attrs, "\n" + ""), more);
    IndentAppend2(depth, head + PrintBlock(attrs, "\n" + more), head + PrintBlock(attrs, "\n" + ""), more);
  }

  lemma TailAppend(attrs: Attrs, more: string)
    ensures PrintBlock(attrs, "\n" + more) == PrintBlock(attrs, "\n" + "") + more
    ensures PrintBlock(attrs, "\n" + "") == Block(attrs) + "\n"
  {
    hide PrintBlock, PrintAttrs;
    BlockAppend(attrs, "\n" + more);
    BlockAppend(attrs, "\n" + "");
    Assoc3(Block(attrs), "\n", more);
    assert "\n" + "" == "\n";
  }

  lemma DeclAppend(depth: nat, key: string, value: Value, more: string)
    ensures Indent(depth, PrintAttr(key, value, "\n" + more)) == Indent(depth, PrintAttr(key, value, "\n" + "")) + more
  {
    hide Indent, PrintAttr, FormatValue;
    AttrAppend(key, value, "\n" + more);
    AttrAppend(key, value, "\n" + "");
    var t := key + "=" + FormatValue(value);
    assert "\n" + "" == "\n";
    Assoc3(t, "\n", more);
    IndentAppend2(depth, PrintAttr(key, value, "\n" + more), PrintAttr(key, value, "\n" + ""), more);
  }

  /** What follows the last node of a printed edge. */
  function EdgeTail(attrs: Attrs, more: string): string {
    if attrs == map[] then "\n" + more else " " + PrintBlock(attrs, "\n" + more)
  }

  lemma EdgeTailAppend(attrs: Attrs, more: string)
    ensures EdgeTail(attrs, more) == EdgeTail(attrs, "") + more
    ensures EdgeTail(attrs, "") == if attrs == map[] then "\n" else " " + (Block(attrs) + "\n")
  {
    hide PrintBlock, Block;
    TailAppend(attrs, more);
    Assoc3(" ", PrintBlock(attrs, "\n" + ""), more);
    assert "\n" + "" == "\n";
  }

  lemma EdgeAppend(depth: nat, chain: seq<string>, attrs: Attrs, more: string)
    ensures Print(Edge(chain, attrs), depth, more) == Print(Edge(chain, attrs), depth, "") + more
  {
    EdgePrint(depth, chain, attrs, more);
    EdgePrint(depth, chain, attrs, "");
    hide Indent, PrintBlock, PrintChain, Print, EdgeTail;
    var t, t' := EdgeTail(attrs, more), EdgeTail(attrs, "");
    EdgeTailAppend(attrs, more);
    ChainAppend(chain, t);
    ChainAppend(chain, t');
    Assoc3(PrintChain(chain, ""), t', more);
    IndentAppend2(depth, PrintChain(chain, t), PrintChain(chain, t'), more);
  }

  lemma EdgePrint(depth: nat, chain: seq<string>, attrs: Attrs, more: string)
    ensures Print(Edge(chain, attrs), depth, more) == Indent(depth, PrintChain(chain, EdgeTail(attrs, more)))
  {
    hide Indent, PrintBlock, PrintChain;
  }

  /** The line that opens a subgraph. */
  function Opening(name: Option<string>): string {
    "subgraph" + (match name case None => "" case Some(id) => " " + id) + " {\n"
  }

  lemma OpeningAppend(name: Option<string>, t: string)
    ensures "subgraph" + PrintName(name, " {\n" + t) == Opening(name) + t
  {
  }

  lemma {:induction false} SubgraphAppend(depth: nat, name: Option<string>, body: seq<Statement>, more: string)
    ensures Print(Subgraph(name, body), depth, more) == Print(Subgraph(name, body), depth, "") + more
    ensures Print(Subgraph(name, body), depth, "")
         == Indent(depth, "") + Opening(name) + PrintAll(body, depth + 1, "") + Indent(depth, "") + "}\n"
    decreases body, 2
  {
    hide Indent, PrintAll, PrintName, Opening;
    var close, close' := Indent(depth, "}\n" + more), Indent(depth, "}\n" + "");
    assert "}\n" + "" == "}\n";
    IndentAppend2(depth, "}\n" + more, "}\n", more);
    IndentAppend(depth, "}\n");
    PrintAllAppend(body, depth + 1, close);
    PrintAllAppend(body, depth + 1, close');
    var t, t' := PrintAll(body, depth + 1, close), PrintAll(body, depth + 1, close');
    Assoc3(PrintAll(body, depth + 1, ""), close', more);
    OpeningAppend(name, t);
    OpeningAppend(name, t');
    Assoc3(Opening(name), t', more);
    IndentAppend2(depth, Opening(name) + t, Opening(name) + t', more);
    IndentAppend(depth, Opening(name) + t');
    Regroup(Indent(depth, ""), Opening(name), PrintAll(body, depth + 1, ""));
  }

  lemma Regroup(a: string, b: string, c: string)
    ensures a + (b + (c + (a + "}\n"))) == a + b + c + a + "}\n"
  {
  }

  lemma {:induction false} PrintAllAppend(stmts: seq<Statement>, depth: nat, more: string)
    ensures PrintAll(stmts, depth, more) == PrintAll(stmts, depth, "") + more
    decreases stmts, 1
  {
    hide Print;
    if stmts != [] {
      var t, t' := PrintAll(stmts[1..], depth, more), PrintAll(stmts[1..], depth, "");
      PrintAllAppend(stmts[1..], depth, more);
      PrintAppend(stmts[0], depth, t);
      PrintAppend(stmts[0], depth, t');
      Assoc3(Print(stmts[0], depth, ""), t', more);
    }
  }

  /** A list with a statement in front. */
  lemma PrintCons(st: Statement, rest: seq<Statement>, depth: nat)
    ensures PrintAll([st] + rest, depth, "") == Print(st, depth, "") + PrintAll(rest, depth, "")
  {
    hide Print;
    assert ([st] + rest)[1..] == rest;
    PrintAppend(st, depth, PrintAll(rest, depth, ""));
  }

  lemma {:induction false} PrintConcat(a: seq<Statement>, b: seq<Statement>, depth: nat)
    ensures PrintAll(a + b, depth, "") == PrintAll(a, depth, "") + PrintAll(b, depth, "")
    decreases |a|
  {
    hide PrintAll, Print;
    if a == [] {
      assert a + b == b;
      PrintEmpty(depth);
    } else {
      assert a == [a[0]] + a[1..] && a + b == [a[0]] + (a[1..] + b);
      PrintCons(a[0], a[1..], depth);
      PrintCons(a[0], a[1..] + b, depth);
      PrintConcat(a[1..], b, depth);
      Assoc3(Print(a[0], depth, ""), PrintAll(a[1..], depth, ""), PrintAll(b, depth, ""));
    }
  }

  lemma PrintEmpty(depth: nat)
    ensures PrintAll([], depth, "") == ""
  {
  }

  lemma PrintSingle(st: Statement, depth: nat)
    ensures PrintAll([st], depth, "") == Print(st, depth, "")
  {
    hide Print;
    assert [st] == [st] + [];
    PrintCons(st, [], depth);
    PrintEmpty(depth);
  }

  // ---------------------------------------------------------------------
  // The writers
  // ---------------------------------------------------------------------

  class TextOut {
    var out: string

    constructor ()
      ensures out == ""
    {
      out := "";
    }

    method PushStr(s: string)
      modifies this
      ensures out == old(out) + s
    {
      out := out + s;
    }

    method PushIndent(depth: nat)
      modifies this
      ensures out == old(out) + Indent(depth, "")
    {
      for i := 0 to depth
        invariant out == old(out) + Indent(i, "")
      {
        IndentSnoc(i);
        ghost var before := out;
        PushStr("    ");
        Assoc3(old(out), Indent(i, ""), "    ");
      }
    }

    static lemma {:induction false} IndentSnoc(depth: nat)
      ensures Indent(depth + 1, "") == Indent(depth, "") + "    "
    {
      if depth > 0 {
        IndentSnoc(depth - 1);
        Assoc3("    ", Indent(depth - 1, ""), "    ");
      }
    }

    method WriteAttrList(attrs: Attrs)
      modifies this
      ensures out == old(out) + PrintAttrs(attrs, Sorted(attrs.Keys), "")
    {
      hide PrintAttrs, FormatValue, Rest, Sorted;
      var keys := Sorted(attrs.Keys);
      var first := true;
      RestStart(attrs, keys);
      for i := 0 to |keys|
        invariant first == (i == 0)
        invariant out + Rest(attrs, keys, i) == old(out) + PrintAttrs(attrs, keys, "")
      {
        RestStep(attrs, keys, i);
        ghost var before := out;
        var sep := if first then "" else ", ";
        if !first {
          PushStr(", ");
        } else {
          assert out + "" == out;
        }
        first := false;
        PushStr(keys[i]);
        PushStr("=");
        PushStr(FormatValue(attrs[keys[i]]));
        Accumulate(before, sep, keys[i], FormatValue(attrs[keys[i]]), Rest(attrs, keys, i + 1));
      }
      RestEnd(attrs, keys);
    }

    /** What is still to be written once `i` attributes are. */
    static ghost function Rest(attrs: Attrs, keys: seq<string>, i: nat): string
      requires i <= |keys| && forall k | k in keys :: k in attrs
    {
      (if 0 < i < |keys| then ", " else "") + PrintAttrs(attrs, keys[i..], "")
    }

    static lemma RestStart(attrs: Attrs, keys: seq<string>)
      requires forall k | k in keys :: k in attrs
      ensures Rest(attrs, keys, 0) == PrintAttrs(attrs, keys, "")
    {
      assert keys[0..] == keys;
    }

    static lemma RestStep(attrs: Attrs, keys: seq<string>, i: nat)
      requires i < |keys| && forall k | k in keys :: k in attrs
      ensures Rest(attrs, keys, i)
           == (if i == 0 then "" else ", ") + (keys[i] + ("=" + (FormatValue(attrs[keys[i]]) + Rest(attrs, keys, i + 1))))
    {
      hide FormatValue;
      assert keys[i..][0] == keys[i] && keys[i..][1..] == keys[i + 1..];
    }

    static lemma RestEnd(attrs: Attrs, keys: seq<string>)
      requires forall k | k in keys :: k in attrs
      ensures Rest(attrs, keys, |keys|) == ""
    {
      assert keys[|keys|..] == [];
    }

    static lemma Accumulate(a: string, sep: string, key: string, value: string, rest: string)
      ensures a + (sep + (key + ("=" + (value + rest)))) == a + sep + key + "=" + value + rest
    {
      var t := "=" + (value + rest);
      Assoc3(a, sep, key + t);
      Assoc3(a + sep, key, t);
      Assoc3(a + sep + key, "=", value + rest);
      Assoc3(a + sep + key + "=", value, rest);
    }

    method WriteDefaultsBlock(depth: nat, keyword: string, attrs: Attrs)
      requires keyword == "node" || keyword == "edge"
      modifies this
      ensures out == old(out) + PrintAll(if keyword == "node" then DefaultsBlock(attrs) else EdgeDefaultsBlock(attrs), depth, "")
    {
      hide PrintAttrs, Indent, PrintBlock;
      if attrs == map[] {
        return;
      }
      PushIndent(depth);
      PushStr(keyword);
      PushStr(" [");
      WriteAttrList(attrs);
      PushStr("]\n");
      ghost var list := PrintAttrs(attrs, Sorted(attrs.Keys), "");
      DefaultsText(depth, keyword, attrs);
      PrintSingle(if keyword == "node" then NodeDefaults(attrs) else EdgeDefaults(attrs), depth);
      Flatten(old(out), Indent(depth, ""), keyword, list);
    }

    static lemma DefaultsText(depth: nat, keyword: string, attrs: Attrs)
      requires keyword == "node" || keyword == "edge"
      ensures Print(if keyword == "node" then NodeDefaults(attrs) else EdgeDefaults(attrs), depth, "")
           == Indent(depth, "") + (keyword + " [" + PrintAttrs(attrs, Sorted(attrs.Keys), "") + "]\n")
    {
      hide PrintAttrs, Indent, PrintBlock, Sorted, Print;
      DefaultsPrint(depth, keyword, attrs);
      TailAppend(attrs, "");
      IndentAppend(depth, keyword + " " + PrintBlock(attrs, "\n" + ""));
      Bracket(keyword, PrintAttrs(attrs, Sorted(attrs.Keys), ""));
    }

    static lemma DefaultsPrint(depth: nat, keyword: string, attrs: Attrs)
      requires keyword == "node" || keyword == "edge"
      ensures Print(if keyword == "node" then NodeDefaults(attrs) else EdgeDefaults(attrs), depth, "")
           == Indent(depth, keyword + " " + PrintBlock(attrs, "\n" + ""))
    {
      hide Indent, PrintBlock;
      assert "node" + " " == "node " && "edge" + " " == "edge ";
    }

    static lemma Bracket(id: string, list: string)
      ensures id + " " + ("[" + list + "]" + "\n") == id + " [" + list + "]\n"
    {
    }

    static lemma Flatten(a: string, indent: string, id: string, list: string)
      ensures a + indent + id + " [" + list + "]\n" == a + (indent + (id + " [" + list + "]\n"))
    {
    }

    method WriteBareAttr(depth: nat, key: string, value: Value)
      modifies this
      ensures out == old(out) + Print(GraphAttrDecl(key, value), depth, "")
    {
      hide Indent, Print, FormatValue;
      PushIndent(depth);
      PushStr(key);
      PushStr("=");
      PushStr(FormatValue(value));
      PushStr("\n");
      BareText(old(out), key, value, depth);
    }

    method WriteBareAttrs(depth: nat, attrs: Attrs)
      modifies this
      ensures out == old(out) + PrintAll(EmitAttrs(attrs, Sorted(attrs.Keys)), depth, "")
    {
      hide PrintAll, EmitAttrs, Indent, Print, FormatValue, Sorted;
      var keys := Sorted(attrs.Keys);
      assert keys[0..] == keys;
      for i := 0 to |keys|
        invariant out + PrintAll(EmitAttrs(attrs, keys[i..]), depth, "") == old(out) + PrintAll(EmitAttrs(attrs, keys), depth, "")
      {
        ghost var before := out;
        var key, value := keys[i], attrs[keys[i]];
        BareStep(attrs, keys, i, depth);
        WriteBareAttr(depth, key, value);
        Assoc3(before, Print(GraphAttrDecl(key, value), depth, ""), PrintAll(EmitAttrs(attrs, keys[i + 1..]), depth, ""));
      }
      assert keys[|keys|..] == [];
      BareEnd(attrs, depth);
    }

    static lemma BareStep(attrs: Attrs, keys: seq<string>, i: nat, depth: nat)
      requires i < |keys| && forall k | k in keys :: k in attrs
      ensures PrintAll(EmitAttrs(attrs, keys[i..]), depth, "")
           == Print(GraphAttrDecl(keys[i], attrs[keys[i]]), depth, "") + PrintAll(EmitAttrs(attrs, keys[i + 1..]), depth, "")
    {
      hide PrintAll, Print;
      assert keys[i..][0] == keys[i] && keys[i..][1..] == keys[i + 1..];
      PrintCons(GraphAttrDecl(keys[i], attrs[keys[i]]), EmitAttrs(attrs, keys[i + 1..]), depth);
    }

    static lemma BareEnd(attrs: Attrs, depth: nat)
      ensures PrintAll(EmitAttrs(attrs, []), depth, "") == ""
    {
    }

    static lemma BareText(a: string, key: string, value: Value, depth: nat)
      ensures a + Indent(depth, "") + key + "=" + FormatValue(value) + "\n" == a + Print(GraphAttrDecl(key, value), depth, "")
    {
      hide Indent, FormatValue, PrintAttr;
      AttrAppend(key, value, "\n" + "");
      assert "\n" + "" == "\n";
      IndentAppend(depth, PrintAttr(key, value, "\n"));
      var t := key + "=" + FormatValue(value);
      BareRegroup(a, Indent(depth, ""), key, FormatValue(value));
    }

    static lemma BareRegroup(a: string, indent: string, key: string, value: string)
      ensures a + indent + key + "=" + value + "\n" == a + (indent + (key + "=" + value + "\n"))
    {
    }

    /** The next node to write: the first in key order that is ready, else the first. */
    method FindNext(nodes: map<string, NodeDef>, remaining: set<string>) returns (id: string)
      requires remaining != {} && remaining <= nodes.Keys
      ensures id == NextId(nodes, remaining)
    {
      hide Ready, NextId, Sorted, Leq;
      ghost var ready := set r | r in remaining && Ready(nodes, r, remaining);
      ChosenFrom(nodes, remaining, ready);
      var ids := Sorted(remaining);
      for i := 0 to |ids|
        invariant forall j | 0 <= j < i :: ids[j] !in ready
      {
        if Ready(nodes, ids[i], remaining) {
          FirstIsLeast(ids, remaining, i, ready);
          return ids[i];
        }
      }
      assert forall r | r in remaining :: r in ids && r !in ready;
      FirstIsLeast(ids, remaining, 0, remaining);
      id := ids[0];
    }

    static lemma ChosenFrom(nodes: map<string, NodeDef>, remaining: set<string>, ready: set<string>)
      requires remaining != {} && remaining <= nodes.Keys
      requires forall r :: r in ready <==> r in remaining && Ready(nodes, r, remaining)
      ensures NextId(nodes, remaining) == if ready != {} then Least(ready) else Least(remaining)
    {
      hide Ready, Least;
      assert ready == set r | r in remaining && Ready(nodes, r, remaining);
    }

    static lemma FirstIsLeast(ids: seq<string>, keys: set<string>, i: nat, chosen: set<string>)
      requires ids == Sorted(keys) && i < |ids| && chosen <= keys && ids[i] in chosen
      requires forall j | 0 <= j < i :: ids[j] !in chosen
      ensures Least(chosen) == ids[i]
    {
      hide Sorted, Least, Leq;
      forall x | x in chosen ensures Leq(ids[i], x) {
        assert x in ids;
        var j :| 0 <= j < |ids| && ids[j] == x;
        LeqTotal(ids[i], ids[i]);
      }
      assert IsLeast(ids[i], chosen);
      LeastUnique(chosen);
    }

    method WriteNodes(depth: nat, nodes: map<string, NodeDef>)
      modifies this
      ensures out == old(out) + PrintAll(EmitNodes(nodes, nodes.Keys, map[]), depth, "")
    {
      hide PrintAll, EmitNodes, Indent, Print, PrintAttrs, NextId, Delta, Inherited, DefaultsBlock;
      var remaining := nodes.Keys;
      var current: Attrs := map[];
      while remaining != {}
        invariant remaining <= nodes.Keys
        invariant out + PrintAll(EmitNodes(nodes, remaining, current), depth, "")
               == old(out) + PrintAll(EmitNodes(nodes, nodes.Keys, map[]), depth, "")
        decreases remaining
      {
        ghost var before := out;
        ghost var current0 := current;
        var id := FindNext(nodes, remaining);
        NodesStep(nodes, remaining, current, depth);
        var delta := Delta(Inherited(nodes[id]), current);
        if delta != map[] {
          WriteDefaultsBlock(depth, "node", delta);
          current := current + delta;
        } else {
          NoDelta(before, current, delta, depth);
        }
        remaining := remaining - {id};
        ghost var block := PrintAll(DefaultsBlock(delta), depth, "");
        assert out == before + block && current == current0 + delta;
        ghost var middle := out;
        PushIndent(depth);
        PushStr(id);
        if nodes[id].authored == map[] {
          PushStr(";\n");
        } else {
          PushStr(" [");
          WriteAttrList(nodes[id].authored);
          PushStr("]\n");
        }
        NodeText(middle, id, nodes[id].authored, depth);
        ghost var rest := PrintAll(EmitNodes(nodes, remaining, current), depth, "");
        Assoc4(before, block, Print(Node(id, nodes[id].authored), depth, ""), rest);
      }
      NodesEnd(nodes, current, depth);
    }

    static lemma Assoc4(a: string, b: string, c: string, d: string)
      ensures a + b + c + d == a + (b + c + d)
    {
    }

    static lemma NoDelta(a: string, current: Attrs, delta: Attrs, depth: nat)
      requires delta == map[]
      ensures a + PrintAll(DefaultsBlock(delta), depth, "") == a && current + delta == current
    {
    }

    static lemma NodesEnd(nodes: map<string, NodeDef>, current: Attrs, depth: nat)
      ensures PrintAll(EmitNodes(nodes, {}, current), depth, "") == ""
    {
    }

    static lemma NodesStep(nodes: map<string, NodeDef>, remaining: set<string>, current: Attrs, depth: nat)
      requires remaining != {} && remaining <= nodes.Keys
      ensures var id := NextId(nodes, remaining);
        var delta := Delta(Inherited(nodes[id]), current);
        PrintAll(EmitNodes(nodes, remaining, current), depth, "")
        == PrintAll(DefaultsBlock(delta), depth, "") + Print(Node(id, nodes[id].authored), depth, "")
           + PrintAll(EmitNodes(nodes, remaining - {id}, current + delta), depth, "")
    {
      hide PrintAll, Print, NextId, Delta, Inherited, DefaultsBlock;
      var id := NextId(nodes, remaining);
      var delta := Delta(Inherited(nodes[id]), current);
      var st := Node(id, nodes[id].authored);
      PrintConcat(DefaultsBlock(delta) + [st], EmitNodes(nodes, remaining - {id}, current + delta), depth);
      PrintConcat(DefaultsBlock(delta), [st], depth);
      PrintSingle(st, depth);
    }

    static lemma NodeText(a: string, id: string, attrs: Attrs, depth: nat)
      ensures a + Print(Node(id, attrs), depth, "")
           == if attrs == map[] then a + Indent(depth, "") + id + ";\n"
              else a + Indent(depth, "") + id + " [" + PrintAttrs(attrs, Sorted(attrs.Keys), "") + "]\n"
    {
      hide PrintAttrs, Indent, PrintBlock, Print, Sorted;
      NodePrint(id, attrs, depth);
      if attrs == map[] {
        BareNodeText(a, id, depth);
      } else {
        BlockNodeText(a, id, attrs, depth);
      }
    }

    static lemma NodePrint(id: string, attrs: Attrs, depth: nat)
      ensures Print(Node(id, attrs), depth, "")
           == Indent(depth, id + if attrs == map[] then ";\n" + "" else " " + PrintBlock(attrs, "\n" + ""))
    {
      hide PrintBlock, Indent;
    }

    static lemma BareNodeText(a: string, id: string, depth: nat)
      ensures a + Indent(depth, id + (";\n" + "")) == a + Indent(depth, "") + id + ";\n"
    {
      hide Indent;
      assert ";\n" + "" == ";\n";
      IndentAppend(depth, id + ";\n");
      Assoc3(a, Indent(depth, ""), id + ";\n");
      Assoc3(a + Indent(depth, ""), id, ";\n");
    }

    static lemma BlockNodeText(a: string, id: string, attrs: Attrs, depth: nat)
      ensures a + Indent(depth, id + (" " + PrintBlock(attrs, "\n" + "")))
           == a + Indent(depth, "") + id + " [" + PrintAttrs(attrs, Sorted(attrs.Keys), "") + "]\n"
    {
      hide PrintAttrs, Indent, PrintBlock;
      TailAppend(attrs, "");
      var list := PrintAttrs(attrs, Sorted(attrs.Keys), "");
      Bracket(id, list);
      Assoc3(id, " ", PrintBlock(attrs, "\n" + ""));
      IndentAppend(depth, id + (" " + PrintBlock(attrs, "\n" + "")));
      Flatten(a, Indent(depth, ""), id, list);
    }

    method WriteEdges(depth: nat, edges: seq<EdgeDef>)
      modifies this
      ensures out == old(out) + PrintAll(EmitEdges(edges), depth, "")
    {
      hide PrintAll, EmitEdges, Indent, Print, PrintAttrs;
      assert edges[0..] == edges;
      for i := 0 to |edges|
        invariant out + PrintAll(EmitEdges(edges[i..]), depth, "") == old(out) + PrintAll(EmitEdges(edges), depth, "")
      {
        ghost var before := out;
        var e := edges[i];
        EdgesStep(edges, i, depth);
        PushIndent(depth);
        PushStr(e.from);
        PushStr(" -> ");
        PushStr(e.to);
        if e.attrs != map[] {
          PushStr(" [");
          WriteAttrList(e.attrs);
          PushStr("]");
        }
        PushStr("\n");
        EdgeText(before, e, depth);
        Assoc3(before, Print(Edge([e.from, e.to], e.attrs), depth, ""), PrintAll(EmitEdges(edges[i + 1..]), depth, ""));
      }
      assert edges[|edges|..] == [];
      EdgesEnd(depth);
    }

    static lemma EdgesStep(edges: seq<EdgeDef>, i: nat, depth: nat)
      requires i < |edges|
      ensures PrintAll(EmitEdges(edges[i..]), depth, "")
           == Print(Edge([edges[i].from, edges[i].to], edges[i].attrs), depth, "") + PrintAll(EmitEdges(edges[i + 1..]), depth, "")
    {
      hide PrintAll, Print;
      assert edges[i..][0] == edges[i] && edges[i..][1..] == edges[i + 1..];
      PrintCons(Edge([edges[i].from, edges[i].to], edges[i].attrs), EmitEdges(edges[i + 1..]), depth);
    }

    static lemma EdgesEnd(depth: nat)
      ensures PrintAll(EmitEdges([]), depth, "") == ""
    {
    }

    static lemma EdgeText(a: string, e: EdgeDef, depth: nat)
      ensures a + Print(Edge([e.from, e.to], e.attrs), depth, "")
           == if e.attrs == map[] then a + Indent(depth, "") + e.from + " -> " + e.to + "\n"
              else a + Indent(depth, "") + e.from + " -> " + e.to + " [" + PrintAttrs(e.attrs, Sorted(e.attrs.Keys), "") + "]" + "\n"
    {
      EdgePrint(depth, [e.from, e.to], e.attrs, "");
      EdgeTailAppend(e.attrs, "");
      hide PrintAttrs, Indent, PrintChain, EdgeTail, Print;
      var t := EdgeTail(e.attrs, "");
      PairText(e.from, e.to, t);
      IndentAppend(depth, PrintChain([e.from, e.to], t));
      EdgeRegroup(a, Indent(depth, ""), e.from, e.to, t);
      EdgeTailText(a + Indent(depth, "") + e.from + " -> " + e.to, PrintAttrs(e.attrs, Sorted(e.attrs.Keys), ""));
    }

    static lemma EdgeTailText(a: string, list: string)
      ensures a + (" " + ("[" + list + "]" + "\n")) == a + " [" + list + "]" + "\n"
    {
    }

    static lemma PairText(first: string, second: string, t: string)
      ensures PrintChain([first, second], t) == first + " -> " + second + t
    {
      assert [first, second][1..] == [second];
      assert PrintChain([second], t) == second + t;
    }

    static lemma EdgeRegroup(a: string, indent: string, first: string, second: string, t: string)
      ensures a + (indent + (first + " -> " + second + t)) == a + indent + first + " -> " + second + t
    {
    }

    method WriteSubgraphs(depth: nat, sgs: seq<SubgraphDef>)
      modifies this
      ensures out == old(out) + PrintAll(EmitSubgraphs(sgs), depth, "")
      decreases |sgs|, 0
    {
      hide PrintAll, EmitSubgraphs, Indent, Print, EmitBody;
      assert sgs[0..] == sgs;
      for i := 0 to |sgs|
        invariant out + PrintAll(EmitSubgraphs(sgs[i..]), depth, "") == old(out) + PrintAll(EmitSubgraphs(sgs), depth, "")
      {
        ghost var before := out;
        var sg := sgs[i];
        SubgraphsStep(sgs, i, depth);
        PushIndent(depth);
        PushStr("subgraph");
        match sg.name {
          case None =>
          case Some(name) =>
            PushStr(" ");
            PushStr(name);
        }
        PushStr(" {\n");
        OpeningText(before + Indent(depth, ""), sg.name);
        NoSubgraphs();
        WriteBody(depth + 1, sg.attrs, sg.nodeDefaults, sg.edgeDefaults, sg.nodes, sg.edges, []);
        PushIndent(depth);
        PushStr("}\n");
        SubgraphText(before, sg, depth);
        Assoc3(before, Print(EmitSubgraph(sg), depth, ""), PrintAll(EmitSubgraphs(sgs[i + 1..]), depth, ""));
      }
      assert sgs[|sgs|..] == [];
      SubgraphsEnd(depth);
    }

    static lemma NoSubgraphs()
      ensures EmitSubgraphs([]) == []
    {
    }

    static lemma SubgraphsEnd(depth: nat)
      ensures PrintAll(EmitSubgraphs([]), depth, "") == ""
    {
    }

    static lemma SubgraphsStep(sgs: seq<SubgraphDef>, i: nat, depth: nat)
      requires i < |sgs|
      ensures PrintAll(EmitSubgraphs(sgs[i..]), depth, "")
           == Print(EmitSubgraph(sgs[i]), depth, "") + PrintAll(EmitSubgraphs(sgs[i + 1..]), depth, "")
    {
      hide PrintAll, Print, EmitSubgraph;
      assert sgs[i..][0] == sgs[i] && sgs[i..][1..] == sgs[i + 1..];
      PrintCons(EmitSubgraph(sgs[i]), EmitSubgraphs(sgs[i + 1..]), depth);
    }

    static lemma OpeningText(a: string, name: Option<string>)
      ensures a + Opening(name) == match name
        case None => a + "subgraph" + " {\n"
        case Some(id) => a + "subgraph" + " " + id + " {\n"
    {
    }

    static lemma SubgraphText(a: string, sg: SubgraphDef, depth: nat)
      ensures a + Print(EmitSubgraph(sg), depth, "")
           == a + Indent(depth, "") + Opening(sg.name) + PrintAll(EmitSubgraph(sg).body, depth + 1, "") + Indent(depth, "") + "}\n"
    {
      hide Indent, PrintAll, Print, EmitBody, Opening;
      SubgraphAppend(depth, sg.name, EmitSubgraph(sg).body, "");
      SubgraphRegroup(a, Indent(depth, ""), Opening(sg.name), PrintAll(EmitSubgraph(sg).body, depth + 1, ""));
    }

    static lemma SubgraphRegroup(a: string, indent: string, opening: string, body: string)
      ensures a + (indent + opening + body + indent + "}\n") == a + indent + opening + body + indent + "}\n"
    {
    }

    method WriteBody(depth: nat, attrs: Attrs, nodeDefaults: Attrs, edgeDefaults: Attrs,
                     nodes: map<string, NodeDef>, edges: seq<EdgeDef>, subgraphs: seq<SubgraphDef>)
      modifies this
      ensures out == old(out)
        + PrintAll(EmitBody(attrs, EmitSubgraphs(subgraphs), nodes, edges, nodeDefaults, edgeDefaults), depth, "")
      decreases |subgraphs|, 1
    {
      hide PrintAll, EmitAttrs, EmitNodes, EmitEdges, EmitSubgraphs, DefaultsBlock, EdgeDefaultsBlock;
      WriteBareAttrs(depth, attrs);
      WriteSubgraphs(depth, subgraphs);
      WriteNodes(depth, nodes);
      WriteEdges(depth, edges);
      WriteDefaultsBlock(depth, "node", nodeDefaults);
      WriteDefaultsBlock(depth, "edge", edgeDefaults);
      BodyText(old(out), EmitAttrs(attrs, Sorted(attrs.Keys)), EmitSubgraphs(subgraphs), EmitNodes(nodes, nodes.Keys, map[]),
               EmitEdges(edges), DefaultsBlock(nodeDefaults), EdgeDefaultsBlock(edgeDefaults), depth);
    }

    static lemma BodyText(out: string, a: seq<Statement>, b: seq<Statement>, c: seq<Statement>, d: seq<Statement>,
                          e: seq<Statement>, f: seq<Statement>, depth: nat)
      ensures out + PrintAll(a + b + c + d + e + f, depth, "")
           == out + PrintAll(a, depth, "") + PrintAll(b, depth, "") + PrintAll(c, depth, "") + PrintAll(d, depth, "")
              + PrintAll(e, depth, "") + PrintAll(f, depth, "")
    {
      hide PrintAll;
      SixRegroup(out, PrintAll(a, depth, ""), PrintAll(b, depth, ""), PrintAll(c, depth, ""), PrintAll(d, depth, ""),
                 PrintAll(e, depth, ""), PrintAll(f, depth, ""));
      PrintConcat(a + b + c + d + e, f, depth);
      PrintConcat(a + b + c + d, e, depth);
      PrintConcat(a + b + c, d, depth);
      PrintConcat(a + b, c, depth);
      PrintConcat(a, b, depth);
    }

    static lemma SixRegroup(o: string, a: string, b: string, c: string, d: string, e: string, f: string)
      ensures o + (a + b + c + d + e + f) == o + a + b + c + d + e + f
    {
      Assoc3(o, a + b + c + d + e, f);
      Assoc3(o, a + b + c + d, e);
      Assoc3(o, a + b + c, d);
      Assoc3(o, a + b, c);
      Assoc3(o, a, b);
    }
  }

  /** The whole serializer. */
  method ToDotString(g: DotGraph) returns (text: string)
    ensures text == ToDot(g)
  {
    hide PrintAll, EmitBody, EmitSubgraphs;
    var w := new TextOut();
    w.PushStr("digraph ");
    w.PushStr(g.name);
    w.PushStr(" {\n");
    w.WriteBody(1, g.attrs, g.nodeDefaults, g.edgeDefaults, g.nodes, g.edges, g.subgraphs);
    w.PushStr("}\n");
    PrintAllAppend(Emit(g), 1, "}\n");
    WholeText(g.name, PrintAll(Emit(g), 1, ""));
    text := w.out;
  }

  lemma WholeText(name: string, body: string)
    ensures "" + "digraph " + name + " {\n" + body + "}\n" == "digraph " + (name + (" {\n" + (body + "}\n")))
  {
  }
}
