/** Compiled pipelines: nodes, edges, run controls, edge selection
    (crates/attractor-pipeline/src/edge_selection.rs:14-104) and goal gates
    (crates/attractor-pipeline/src/goal_gate.rs:18-84). */
module EngineGraph {
  import opened Wrappers
  import Order

  datatype Status = Success | PartialSuccess | Retry | Fail | Skipped

  /** `cost` and `footprint` are the values that the engine finds under
      `<node>.cost_usd` and `<node>.results` among the updates. */
  datatype Outcome = Outcome(
    status: Status, preferredLabel: Option<string>, suggested: seq<string>, updates: map<string, string>,
    cost: Option<real>, footprint: Option<string>)

  datatype Edge = Edge(
    from: string, to: string, tag: Option<string>, condition: Option<string>, weight: int, loopRestart: bool,
    resetQuality: bool)

  /** `resumes`: an attempt cut off by a crash is asked again, not counted. */
  datatype Node = Node(
    exit: bool, goalGate: bool, quality: bool, maxAttempts: pos, resumes: bool, retryTarget: Option<string>,
    fallbackTarget: Option<string>)

  type Context = map<string, string>

  /** An edge's `tag` is its normalised label; `holds` evaluates a condition. */
  datatype Config = Config(
    nodes: map<string, Node>, edges: seq<Edge>, start: string, retryTarget: Option<string>,
    fallbackTarget: Option<string>, defaults: Context, input: Context, maxSteps: nat, maxBudget: real,
    maxFix: string -> nat, holds: (string, Outcome, Context) -> bool, fingerprint: string)

  predicate StartsWith(key: string, prefix: string) { prefix <= key }

  /** Context keys that belong to the run controls. */
  predicate IsReserved(key: string) {
    key in {"dry_run", "workdir", "max_steps", "max_budget_usd", "quality_disabled", "quality_max_fix_iterations",
            "outcome", "preferred_label", "codergen.skills"}
    || StartsWith(key, "codergen.claude.") || StartsWith(key, "codergen.pi.")
    || StartsWith(key, "__pas.") || StartsWith(key, "__pas::")
  }

  predicate NoReserved(ctx: Context) { forall k | k in ctx :: !IsReserved(k) }

  predicate IsExit(cfg: Config, node: string) { node in cfg.nodes && cfg.nodes[node].exit }

  predicate IsQuality(cfg: Config, node: string) { node in cfg.nodes && cfg.nodes[node].quality }

  // ---------------------------------------------------------------------
  // Edge selection
  // ---------------------------------------------------------------------

  function Outgoing(edges: seq<Edge>, node: string): (r: seq<Edge>)
    ensures forall e | e in r :: e in edges && e.from == node
  {
    if edges == [] then []
    else if edges[0].from == node then [edges[0]] + Outgoing(edges[1..], node)
    else Outgoing(edges[1..], node)
  }

  function Filter(edges: seq<Edge>, keep: Edge -> bool): (r: seq<Edge>)
    ensures forall e :: e in r <==> e in edges && keep(e)
  {
    if edges == [] then []
    else
      var rest := Filter(edges[1..], keep);
      if keep(edges[0]) then [edges[0]] + rest else rest
  }

  /** `b` is at least as good as `a`: heavier, or as heavy with a smaller target. */
  predicate AsGood(a: Edge, b: Edge) {
    b.weight > a.weight || (b.weight == a.weight && Order.Leq(b.to, a.to))
  }

  /** `max_by`: of several best edges the last. */
  function Best(edges: seq<Edge>): (r: Edge)
    requires edges != []
    ensures r in edges
    decreases |edges|
  {
    var last := edges[|edges| - 1];
    if |edges| == 1 then last
    else
      var rest := Best(edges[..|edges| - 1]);
      if AsGood(rest, last) then last else rest
  }

  lemma {:induction false} BestIsBest(edges: seq<Edge>)
    requires edges != []
    ensures forall e | e in edges :: AsGood(e, Best(edges))
    decreases |edges|
  {
    hide Order.Leq;
    var last := edges[|edges| - 1];
    Order.LeqTotal(last.to, last.to);
    if |edges| > 1 {
      var front := edges[..|edges| - 1];
      var rest := Best(front);
      BestIsBest(front);
      Order.LeqTotal(rest.to, last.to);
      Order.LeqTotal(rest.to, rest.to);
      forall e | e in edges ensures AsGood(e, Best(edges)) {
        assert edges == front + [last];
        if e in front && AsGood(rest, last) { AsGoodTransitive(e, rest, last); }
      }
    }
  }

  lemma AsGoodTransitive(a: Edge, b: Edge, c: Edge)
    requires AsGood(a, b) && AsGood(b, c)
    ensures AsGood(a, c)
  {
    hide Order.Leq;
    if c.weight == b.weight == a.weight { Order.LeqTransitive(c.to, b.to, a.to); }
  }

  function FirstWithLabel(edges: seq<Edge>, wanted: string): Option<Edge> {
    if edges == [] then None
    else if edges[0].tag == Some(wanted) then Some(edges[0])
    else FirstWithLabel(edges[1..], wanted)
  }

  function FirstTo(edges: seq<Edge>, to: string): Option<Edge> {
    if edges == [] then None else if edges[0].to == to then Some(edges[0]) else FirstTo(edges[1..], to)
  }

  function FirstSuggested(edges: seq<Edge>, suggested: seq<string>): Option<Edge> {
    if suggested == [] then None
    else if FirstTo(edges, suggested[0]).Some? then FirstTo(edges, suggested[0])
    else FirstSuggested(edges, suggested[1..])
  }

  predicate Fires(cfg: Config, o: Outcome, ctx: Context, e: Edge) {
    e.condition.Some? && cfg.holds(e.condition.value, o, ctx)
  }

  function SelectEdge(cfg: Config, node: string, o: Outcome, ctx: Context): Option<Edge> {
    var edges := Outgoing(cfg.edges, node);
    if edges == [] then None
    else
      var firing := Filter(edges, e => Fires(cfg, o, ctx, e));
      if firing != [] then Some(Best(firing))
      else
        var labelled := if o.preferredLabel.Some? then FirstWithLabel(edges, o.preferredLabel.value) else None;
        if labelled.Some? then labelled
        else
          var suggested := FirstSuggested(edges, o.suggested);
          if suggested.Some? then suggested
          else
            var plain := Filter(edges, (e: Edge) => e.condition.None?);
            Some(if plain == [] then edges[0] else Best(plain))
  }

  /** `e` is the first edge with that label. */
  ghost predicate IsFirstLabelled(edges: seq<Edge>, e: Edge, wanted: string) {
    exists i :: 0 <= i < |edges| && edges[i] == e && e.tag == Some(wanted)
                && forall j | 0 <= j < i :: edges[j].tag != Some(wanted)
  }

  lemma {:induction false} FirstWithLabelIs(edges: seq<Edge>, wanted: string)
    ensures match FirstWithLabel(edges, wanted)
            case None => forall e | e in edges :: e.tag != Some(wanted)
            case Some(e) => IsFirstLabelled(edges, e, wanted)
    decreases |edges|
  {
    if edges != [] {
      FirstWithLabelIs(edges[1..], wanted);
      var r := FirstWithLabel(edges, wanted);
      if edges[0].tag != Some(wanted) && r.Some? {
        var i :| 0 <= i < |edges[1..]| && edges[1..][i] == r.value && r.value.tag == Some(wanted)
                 && forall j | 0 <= j < i :: edges[1..][j].tag != Some(wanted);
        assert edges[i + 1] == r.value;
        assert forall j | 0 < j < i + 1 :: edges[j] == edges[1..][j - 1];
      }
    }
  }

  /** `e` leads to the first suggestion that any edge leads to. */
  ghost predicate IsFirstSuggested(edges: seq<Edge>, e: Edge, suggested: seq<string>) {
    exists i :: 0 <= i < |suggested| && suggested[i] == e.to && forall d | d in edges :: d.to !in suggested[..i]
  }

  /** `e` is the first edge to its target. */
  ghost predicate IsFirstTo(edges: seq<Edge>, e: Edge) {
    exists i :: 0 <= i < |edges| && edges[i] == e && forall j | 0 <= j < i :: edges[j].to != e.to
  }

  lemma {:induction false} FirstToIs(edges: seq<Edge>, to: string)
    ensures FirstTo(edges, to).None? ==> forall e | e in edges :: e.to != to
    ensures FirstTo(edges, to).Some? ==>
              FirstTo(edges, to).value in edges && FirstTo(edges, to).value.to == to && IsFirstTo(edges, FirstTo(edges, to).value)
    decreases |edges|
  {
    if edges != [] {
      FirstToIs(edges[1..], to);
      var r := FirstTo(edges, to);
      if edges[0].to != to && r.Some? {
        var i :| 0 <= i < |edges[1..]| && edges[1..][i] == r.value && forall j | 0 <= j < i :: edges[1..][j].to != r.value.to;
        assert edges[i + 1] == r.value;
        assert forall j | 0 < j < i + 1 :: edges[j] == edges[1..][j - 1];
      }
    }
  }

  /** The first suggestion that some edge leads to, and the first edge there. */
  lemma {:induction false} FirstSuggestedIs(edges: seq<Edge>, suggested: seq<string>)
    ensures FirstSuggested(edges, suggested).None? ==> forall e | e in edges :: e.to !in suggested
    ensures FirstSuggested(edges, suggested).Some? ==>
              var e := FirstSuggested(edges, suggested).value;
              e in edges && IsFirstSuggested(edges, e, suggested) && IsFirstTo(edges, e)
    decreases |suggested|
  {
    hide IsFirstTo;
    if suggested != [] {
      FirstToIs(edges, suggested[0]);
      FirstSuggestedIs(edges, suggested[1..]);
      var r := FirstSuggested(edges, suggested);
      if r.Some? {
        if FirstTo(edges, suggested[0]).Some? {
          assert suggested[0] == r.value.to && suggested[..0] == [];
        } else {
          ChosenLater(edges, r.value, suggested);
        }
      }
    }
  }

  lemma ChosenLater(edges: seq<Edge>, e: Edge, suggested: seq<string>)
    requires suggested != [] && (forall d | d in edges :: d.to != suggested[0])
    requires IsFirstSuggested(edges, e, suggested[1..])
    ensures IsFirstSuggested(edges, e, suggested)
  {
    var i :| 0 <= i < |suggested[1..]| && suggested[1..][i] == e.to && forall d | d in edges :: d.to !in suggested[1..][..i];
    assert suggested[..i + 1] == [suggested[0]] + suggested[1..][..i];
    assert suggested[i + 1] == e.to;
  }

  /** The outgoing edges of a node are all edges from it, in the plan's order. */
  lemma {:induction false} OutgoingIs(edges: seq<Edge>, more: seq<Edge>, node: string)
    ensures forall e :: e in Outgoing(edges, node) <==> e in edges && e.from == node
    ensures Outgoing(edges + more, node) == Outgoing(edges, node) + Outgoing(more, node)
    decreases |edges|
  {
    if edges == [] {
      assert edges + more == more;
    } else {
      OutgoingIs(edges[1..], more, node);
      assert edges == [edges[0]] + edges[1..];
      assert (edges + more)[1..] == edges[1..] + more;
    }
  }

  /** Heavier, or as heavy and with a target no larger. */
  predicate Beats(e: Edge, d: Edge) { d.weight < e.weight || (d.weight == e.weight && Order.Leq(e.to, d.to)) }

  /** The cascade, by what it promises: no edge only where there is none; a
      condition that holds wins over a label, a label over a suggestion, that
      over the rest; ties go to the heaviest, then to the smallest target, or
      to the first edge. */
  lemma SelectEdgeMeans(cfg: Config, node: string, o: Outcome, ctx: Context)
    ensures SelectEdge(cfg, node, o, ctx).None? <==> forall d | d in cfg.edges :: d.from != node
    ensures SelectEdge(cfg, node, o, ctx).Some? ==>
      var e, out := SelectEdge(cfg, node, o, ctx).value, Outgoing(cfg.edges, node);
      && e in cfg.edges && e.from == node && e in out
      && if exists d :: d in out && d.condition.Some? && cfg.holds(d.condition.value, o, ctx) then
           && e.condition.Some? && cfg.holds(e.condition.value, o, ctx)
           && forall d | d in out && d.condition.Some? && cfg.holds(d.condition.value, o, ctx) :: Beats(e, d)
         else if o.preferredLabel.Some? && exists d :: d in out && d.tag == o.preferredLabel then
           IsFirstLabelled(out, e, o.preferredLabel.value)
         else if exists d :: d in out && d.to in o.suggested then
           IsFirstSuggested(out, e, o.suggested) && IsFirstTo(out, e)
         else if exists d :: d in out && d.condition.None? then
           e.condition.None? && forall d | d in out && d.condition.None? :: Beats(e, d)
         else e == out[0]
  {
    hide Outgoing, Best, FirstWithLabel, FirstSuggested, Filter, IsFirstTo, Order.Leq;
    var out := Outgoing(cfg.edges, node);
    OutgoingIs(cfg.edges, [], node);
    if out == [] {
      assert forall d | d in cfg.edges :: d.from == node ==> d in out;
    } else {
      assert out[0] in out;
      var firing := Filter(out, e => Fires(cfg, o, ctx, e));
      var plain := Filter(out, (e: Edge) => e.condition.None?);
      if firing != [] {
        BestIsBest(firing);
      } else {
        assert forall d | d in out :: d !in firing;
        if plain != [] { BestIsBest(plain); }
        FirstSuggestedIs(out, o.suggested);
        if o.preferredLabel.Some? { FirstWithLabelIs(out, o.preferredLabel.value); }
      }
    }
  }

  // ---------------------------------------------------------------------
  // Goal gates
  // ---------------------------------------------------------------------

  predicate Succeeded(s: Status) { s == Success || s == PartialSuccess }

  predicate Satisfied(o: Outcome) { Succeeded(o.status) }

  predicate IsFailing(cfg: Config, outcomes: map<string, Outcome>, node: string) {
    node in outcomes && node in cfg.nodes && cfg.nodes[node].goalGate && !Satisfied(outcomes[node])
  }

  function Failing(cfg: Config, outcomes: map<string, Outcome>): set<string> {
    set n | n in outcomes && IsFailing(cfg, outcomes, n)
  }

  /** The failing gate met first: any may be, in the map's own order. */
  function Picked(failing: set<string>, met: string): (g: string)
    requires failing != {}
    ensures g in failing
  {
    if met in failing then met else Order.Least(failing)
  }

  function OrElse(a: Option<string>, b: Option<string>): Option<string> { if a.Some? then a else b }

  /** Where to go back to: the gate's own targets, then the graph's. */
  function RetryTarget(cfg: Config, gate: string): Option<string>
    requires gate in cfg.nodes
  {
    var n := cfg.nodes[gate];
    OrElse(OrElse(OrElse(n.retryTarget, n.fallbackTarget), cfg.retryTarget), cfg.fallbackTarget)
  }

  /** Which target a gate goes back to, in full: its own first, then its
      fallback, then the graph's, then the graph's fallback. */
  ghost predicate BackTo(cfg: Config, gate: string, to: Option<string>)
    requires gate in cfg.nodes
  {
    var n := cfg.nodes[gate];
    && (n.retryTarget.Some? ==> to == n.retryTarget)
    && (n.retryTarget.None? && n.fallbackTarget.Some? ==> to == n.fallbackTarget)
    && (n.retryTarget.None? && n.fallbackTarget.None? && cfg.retryTarget.Some? ==> to == cfg.retryTarget)
    && (n.retryTarget.None? && n.fallbackTarget.None? && cfg.retryTarget.None? ==> to == cfg.fallbackTarget)
  }

  lemma RetryTargetIs(cfg: Config, gate: string)
    requires gate in cfg.nodes
    ensures forall to :: BackTo(cfg, gate, to) <==> to == RetryTarget(cfg, gate)
  {
  }

  /** A goal gate that has been left, and not with success, even in part. */
  ghost predicate FailedNow(cfg: Config, outcomes: map<string, Outcome>, g: string) {
    && g in outcomes && g in cfg.nodes && cfg.nodes[g].goalGate
    && (outcomes[g].status == Retry || outcomes[g].status == Fail || outcomes[g].status == Skipped)
  }

  lemma FailingIs(cfg: Config, outcomes: map<string, Outcome>)
    ensures forall g :: g in Failing(cfg, outcomes) <==> FailedNow(cfg, outcomes, g)
  {
  }

  /** What is checked before a Run: the start exists, graph attributes do not
      set run controls, the budget is no debt, a node has one handler, and no
      gate goes back to an exit. */
  ghost predicate Valid(cfg: Config) {
    && cfg.start in cfg.nodes && NoReserved(cfg.defaults) && cfg.maxBudget >= 0.0
    && (forall n | n in cfg.nodes :: !(cfg.nodes[n].exit && cfg.nodes[n].quality))
    && forall g, to | g in cfg.nodes && BackTo(cfg, g, Some(to)) :: !IsExit(cfg, to)
  }
}
