/** Findings about a Run (crates/attractor-monitor/src/findings.rs:155-258):
    the rules that read the Attempts, the stage facts and the gate. A
    finding's text is left out. */
module Findings {
  import opened Wrappers
  import opened JournalEvents
  import opened Projection
  import RunStatus

  datatype Rule = Crashed | Stalled | StageFailed | Retrying | HumanGateWaiting

  datatype Finding = Finding(rule: Rule, node: Option<string>, seq_: Option<nat>)

  /** What the journal cannot tell. */
  datatype Env = Env(alive: nat -> bool, timeout: string -> Option<int>)

  const DEFAULT_NODE_TIMEOUT: int := 600000

  function Rank(rule: Rule): nat {
    match rule case Crashed => 0 case Stalled => 1 case StageFailed => 2 case Retrying => 3 case HumanGateWaiting => 10
  }

  /** The last Attempt, unless it has ended. */
  function Live(v: View): Option<AttemptView> {
    if v.attempts != [] && v.attempts[|v.attempts| - 1].ended.None? then Some(v.attempts[|v.attempts| - 1]) else None
  }

  function SignOfLife(a: AttemptView): int {
    if a.lastHeartbeat.Some? then a.lastHeartbeat.value
    else if a.startedAt.Some? then a.startedAt.value else a.lastEventAt
  }

  predicate IsCrashed(a: AttemptView, now: int, env: Env) {
    now - SignOfLife(a) > RunStatus.CRASH_AFTER && !(a.pid.Some? && env.alive(a.pid.value))
  }

  /** A crash is what the findings report for this view. */
  predicate CrashReported(v: View, now: int, env: Env) {
    Live(v).Some? && IsCrashed(Live(v).value, now, env)
  }

  /** Beating, at a node, and silent for longer than the node may be. */
  predicate IsStalled(v: View, a: AttemptView, now: int, env: Env) {
    v.currentNode.Some?
    && a.lastHeartbeat.Some? && now - a.lastHeartbeat.value <= RunStatus.CRASH_AFTER
    && var timeout := env.timeout(v.currentNode.value);
      now - a.lastActivityAt > if timeout.Some? then timeout.value else DEFAULT_NODE_TIMEOUT
  }

  // ---------------------------------------------------------------------
  // derive
  // ---------------------------------------------------------------------

  /** One finding for each fact that counts. */
  function FactFindings(facts: seq<StageFact>, rule: Rule, least: nat): seq<Finding>
    decreases |facts|
  {
    if facts == [] then []
    else
      var rest := FactFindings(facts[..|facts| - 1], rule, least);
      var f := facts[|facts| - 1];
      if least == 0 || (f.retry.Some? && f.retry.value >= least) then rest + [Finding(rule, Some(f.node), Some(f.seq_))]
      else rest
  }

  /** Crashed or stalled, never both. */
  function LifeFindings(v: View, now: int, env: Env): seq<Finding> {
    if Live(v).None? then []
    else if IsCrashed(Live(v).value, now, env) then [Finding(Crashed, None, None)]
    else if IsStalled(v, Live(v).value, now, env) then [Finding(Stalled, v.currentNode, None)]
    else []
  }

  function GateFindings(v: View): seq<Finding> {
    if v.gate.Some? then [Finding(HumanGateWaiting, Some(v.gate.value.node), None)] else []
  }

  /** All that is due, rule by rule. */
  function Due(v: View, now: int, env: Env): seq<Finding> {
    LifeFindings(v, now, env) + FactFindings(v.failures, Rule.StageFailed, 0) + FactFindings(v.retries, Retrying, 2)
    + GateFindings(v)
  }

  method PushFacts(out: seq<Finding>, facts: seq<StageFact>, rule: Rule, least: nat) returns (all: seq<Finding>)
    ensures all == out + FactFindings(facts, rule, least)
  {
    all := out;
    var i := 0;
    while i < |facts|
      invariant i <= |facts| && all == out + FactFindings(facts[..i], rule, least)
    {
      assert facts[..i + 1][..i] == facts[..i];
      if least == 0 || (facts[i].retry.Some? && facts[i].retry.value >= least) {
        all := all + [Finding(rule, Some(facts[i].node), Some(facts[i].seq_))];
      }
      i := i + 1;
    }
    assert facts[..i] == facts;
  }

  method Derive(v: View, now: int, env: Env) returns (out: seq<Finding>)
    ensures out == Due(v, now, env)
  {
    hide FactFindings, IsCrashed, IsStalled;
    out := [];
    var crashed := false;
    if Live(v).Some? {
      crashed := IsCrashed(Live(v).value, now, env);
      if crashed {
        out := out + [Finding(Crashed, None, None)];
      }
    }
    if Live(v).Some? && !crashed && IsStalled(v, Live(v).value, now, env) {
      out := out + [Finding(Stalled, v.currentNode, None)];
    }
    out := PushFacts(out, v.failures, Rule.StageFailed, 0);
    out := PushFacts(out, v.retries, Retrying, 2);
    if v.gate.Some? {
      out := out + [Finding(HumanGateWaiting, Some(v.gate.value.node), None)];
    }
  }

  // ---------------------------------------------------------------------
  // Rule by rule
  // ---------------------------------------------------------------------

  /** The findings of one rule. */
  function Only(out: seq<Finding>, rule: Rule): seq<Finding>
    decreases |out|
  {
    if out == [] then []
    else
      var rest := Only(out[..|out| - 1], rule);
      if out[|out| - 1].rule == rule then rest + [out[|out| - 1]] else rest
  }

  lemma {:induction false} OnlyConcat(a: seq<Finding>, b: seq<Finding>, rule: Rule)
    ensures Only(a + b, rule) == Only(a, rule) + Only(b, rule)
    decreases |b|
  {
    if b == [] {
      assert a + b == a;
    } else {
      assert (a + b)[..|a + b| - 1] == a + b[..|b| - 1];
      OnlyConcat(a, b[..|b| - 1], rule);
    }
  }

  predicate InRuleOrder(out: seq<Finding>) {
    forall i, j | 0 <= i < j < |out| :: Rank(out[i].rule) <= Rank(out[j].rule)
  }

  predicate AllOf(out: seq<Finding>, rule: Rule) { forall f | f in out :: f.rule == rule }

  lemma {:induction false} OnlyAll(out: seq<Finding>, own: Rule, rule: Rule)
    requires AllOf(out, own)
    ensures Only(out, rule) == if rule == own then out else []
    decreases |out|
  {
    if out != [] {
      assert out[|out| - 1] in out;
      OnlyAll(out[..|out| - 1], own, rule);
    }
  }

  lemma {:induction false} FactsAreOf(facts: seq<StageFact>, rule: Rule, least: nat)
    ensures AllOf(FactFindings(facts, rule, least), rule)
    decreases |facts|
  {
    if facts != [] { FactsAreOf(facts[..|facts| - 1], rule, least); }
  }

  lemma GateIsOf(v: View)
    ensures AllOf(GateFindings(v), HumanGateWaiting)
  {
  }

  lemma OnlyOfFour(a: seq<Finding>, b: seq<Finding>, c: seq<Finding>, d: seq<Finding>, rule: Rule)
    ensures Only(a + b + c + d, rule) == Only(a, rule) + Only(b, rule) + Only(c, rule) + Only(d, rule)
  {
    hide Only;
    OnlyConcat(a + b + c, d, rule);
    OnlyConcat(a + b, c, rule);
    OnlyConcat(a, b, rule);
  }

  lemma RanksAscend(a: seq<Finding>, b: seq<Finding>, c: seq<Finding>, d: seq<Finding>)
    requires |a| <= 1 && forall f | f in a :: f.rule == Crashed || f.rule == Stalled
    requires AllOf(b, Rule.StageFailed) && AllOf(c, Retrying) && AllOf(d, HumanGateWaiting)
    ensures InRuleOrder(a + b + c + d)
  {
    var all := a + b + c + d;
    forall i | 0 <= i < |all|
      ensures all[i].rule == if i < |a| then a[0].rule else if i < |a + b| then Rule.StageFailed
                             else if i < |a + b + c| then Retrying else HumanGateWaiting
    {
      assert all[i] in if i < |a| then a else if i < |a + b| then b else if i < |a + b + c| then c else d;
    }
  }

  lemma LifeOnly(v: View, now: int, env: Env, rule: Rule)
    ensures var life := LifeFindings(v, now, env);
      && |life| <= 1 && (forall f | f in life :: f.rule == Crashed || f.rule == Stalled)
      && Only(life, rule) == if rule == Crashed && CrashReported(v, now, env) then [Finding(Crashed, None, None)]
                             else if rule == Stalled && !CrashReported(v, now, env) then life
                             else []
  {
    hide Only, IsCrashed, IsStalled;
    var life := LifeFindings(v, now, env);
    OnlyAll(life, if life == [] then rule else life[0].rule, rule);
  }

  /** The findings due under one rule are that rule's alone, and the rules come
      in order. */
  lemma DueByRule(v: View, now: int, env: Env, rule: Rule)
    ensures var out := Due(v, now, env);
      && InRuleOrder(out)
      && Only(out, rule) == match rule
                            case Crashed => if CrashReported(v, now, env) then [Finding(Crashed, None, None)] else []
                            case Stalled => if CrashReported(v, now, env) then [] else LifeFindings(v, now, env)
                            case StageFailed => FactFindings(v.failures, Rule.StageFailed, 0)
                            case Retrying => FactFindings(v.retries, Retrying, 2)
                            case HumanGateWaiting => GateFindings(v)
  {
    hide Only, FactFindings, CrashReported, LifeFindings, GateFindings, InRuleOrder;
    var a, b, c, d := LifeFindings(v, now, env), FactFindings(v.failures, Rule.StageFailed, 0),
      FactFindings(v.retries, Retrying, 2), GateFindings(v);
    FactsAreOf(v.failures, Rule.StageFailed, 0);
    FactsAreOf(v.retries, Retrying, 2);
    OnlyOfFour(a, b, c, d, rule);
    LifeOnly(v, now, env, rule);
    GateIsOf(v);
    OnlyAll(b, Rule.StageFailed, rule);
    OnlyAll(c, Retrying, rule);
    OnlyAll(d, HumanGateWaiting, rule);
    RanksAscend(a, b, c, d);
  }

  // ---------------------------------------------------------------------
  // Agreement with the derived status
  // ---------------------------------------------------------------------

  /** The two rules look at the same sign of life, or at signs that make no
      difference now: both recent, both of live or both of dead processes, or
      both old. `indexed` is the start time of the Index entry. */
  predicate SignsMatch(own: seq<JournalEvent>, indexed: int, now: int, env: Env)
    requires own != []
  {
    match (RunStatus.LastBeat(own), RunStatus.LastStart(own))
    case (Some(beat), start) =>
      now - beat.at <= RunStatus.CRASH_AFTER || env.alive(beat.pid) == (start.Some? && env.alive(start.value.pid))
    case (None, Some(_)) => true
    case (None, None) =>
      var latest := RunStatus.LatestAt(own);
      || (latest + RunStatus.CRASH_AFTER < now && indexed + RunStatus.CRASH_AFTER < now)
      || (now <= latest + RunStatus.CRASH_AFTER && now <= indexed + RunStatus.CRASH_AFTER)
  }

  /** MAIN RESULT. The Crashed finding and the derived status agree exactly
      when the last Attempt has ended or the signs match. */
  lemma CrashesAgree(events: seq<JournalEvent>, indexed: int, now: int, env: Env)
    requires RunStatus.AllKnown(events) && events != []
    ensures var own := Of(events, RunStatus.MaxAttempt(events));
      && own != []
      && ((CrashReported(Fold(events), now, env) <==> RunStatus.StatusIn(own, indexed, now, env.alive) == RunStatus.Status.Crashed)
          <==> (RunStatus.Ends(own) != [] || SignsMatch(own, indexed, now, env)))
  {
    hide Fold, Of, Record, RunStatus.MaxAttempt, RunStatus.Ends, RunStatus.LastBeat, RunStatus.LastStart, RunStatus.LatestAt;
    var own := Of(events, RunStatus.MaxAttempt(events));
    RunStatus.LastRecord(events);
    RunStatus.RecordMeans(own);
  }

  lemma {:induction false} LastBeatIs(own: seq<JournalEvent>, pid: nat)
    requires forall e | e in own && e.data.Heartbeat? :: e.data.pid == pid
    ensures RunStatus.LastBeat(own).Some? ==> RunStatus.LastBeat(own).value.pid == pid
    decreases |own|
  {
    if own != [] {
      assert own[|own| - 1] in own;
      LastBeatIs(own[..|own| - 1], pid);
    }
  }

  /** They agree for every Attempt that started and beats with its own process. */
  lemma BeatingProcessAgrees(events: seq<JournalEvent>, indexed: int, now: int, env: Env)
    requires RunStatus.AllKnown(events) && events != []
    requires var own := Of(events, RunStatus.MaxAttempt(events)); var start := RunStatus.LastStart(own);
      start.Some? && forall e | e in own && e.data.Heartbeat? :: e.data.pid == start.value.pid
    ensures CrashReported(Fold(events), now, env)
       <==> RunStatus.StatusIn(Of(events, RunStatus.MaxAttempt(events)), indexed, now, env.alive) == RunStatus.Status.Crashed
  {
    hide Fold, Of, RunStatus.MaxAttempt, RunStatus.StatusIn, CrashReported;
    var own := Of(events, RunStatus.MaxAttempt(events));
    LastBeatIs(own, RunStatus.LastStart(own).value.pid);
    CrashesAgree(events, indexed, now, env);
  }

  /** An Attempt that started as one process and beats as another. */
  function ForeignBeat(started: nat, beating: nat): seq<JournalEvent> {
    [JournalEvent(1, 0, 1, AttemptStarted(started)), JournalEvent(2, 0, 1, Heartbeat(beating))]
  }

  lemma ForeignBeatOwn(started: nat, beating: nat)
    ensures var events := ForeignBeat(started, beating);
      && RunStatus.MaxAttempt(events) == 1 && Of(events, 1) == events && RunStatus.Ends(events) == []
      && RunStatus.LastBeat(events) == Some(RunStatus.Sign(0, beating))
      && RunStatus.LastStart(events) == Some(RunStatus.Sign(0, started))
  {
    var events := ForeignBeat(started, beating);
    var first := [events[0]];
    assert events[..1] == first && first[..0] == [];
    assert RunStatus.MaxAttempt(first) == 1;
    assert Of(first, 1) == first && first + [events[1]] == events;
    assert RunStatus.Ends(first) == [];
    assert RunStatus.LastStart(first) == Some(RunStatus.Sign(0, started));
  }

  /** When only one of the two processes is alive, two minutes later the rules
      do disagree. */
  lemma ForeignBeatDisagrees(started: nat, beating: nat, indexed: int, now: int, env: Env)
    requires env.alive(started) != env.alive(beating) && now > RunStatus.CRASH_AFTER
    ensures var events := ForeignBeat(started, beating);
      var status := RunStatus.StatusIn(Of(events, RunStatus.MaxAttempt(events)), indexed, now, env.alive);
      CrashReported(Fold(events), now, env) != (status == RunStatus.Status.Crashed)
  {
    hide Fold, Of, Record, RunStatus.MaxAttempt, RunStatus.Ends, RunStatus.LastBeat, RunStatus.LastStart;
    ForeignBeatOwn(started, beating);
    CrashesAgree(ForeignBeat(started, beating), indexed, now, env);
  }
}
