/** "Blocked by" edges between Tasks, and the three-colour search for a cycle
    among them (crates/attractor-monitor/src/proposal.rs:128-176). */
module Dependencies {
  import opened Wrappers

  datatype Dep = Dep(blocked: nat, blocker: nat)

  predicate InRange(deps: seq<Dep>, n: nat) {
    forall d | d in deps :: d.blocked < n && d.blocker < n
  }

  /** Every Task of the list is blocked by the next. */
  predicate Walk(deps: seq<Dep>, w: seq<nat>) {
    forall i | 0 <= i < |w| - 1 :: Dep(w[i], w[i + 1]) in deps
  }

  predicate ClosedWalk(deps: seq<Dep>, w: seq<nat>) {
    |w| >= 2 && w[0] == w[|w| - 1] && Walk(deps, w)
  }

  ghost predicate Acyclic(deps: seq<Dep>) {
    forall w :: !ClosedWalk(deps, w)
  }

  predicate Distinct(s: seq<nat>) { forall i, j | 0 <= i < j < |s| :: s[i] != s[j] }

  /** Every Task stands behind all that block it. */
  ghost predicate Ordered(deps: seq<Dep>, order: seq<nat>) {
    forall i, b | 0 <= i < |order| && Dep(order[i], b) in deps :: b in order[..i]
  }

  lemma WalkTail(deps: seq<Dep>, w: seq<nat>)
    requires Walk(deps, w) && w != []
    ensures Walk(deps, w[1..])
  {
    forall i | 0 <= i < |w[1..]| - 1 ensures Dep(w[1..][i], w[1..][i + 1]) in deps {
      assert Dep(w[i + 1], w[i + 1 + 1]) in deps;
    }
  }

  /** Along a walk the places in such an order go down. */
  lemma {:induction false} WalkGoesDown(deps: seq<Dep>, order: seq<nat>, w: seq<nat>, at: nat)
    requires Ordered(deps, order) && Distinct(order) && |w| >= 1 && Walk(deps, w)
    requires at < |order| && order[at] == w[0]
    ensures exists to :: 0 <= to <= at && order[to] == w[|w| - 1] && (|w| > 1 ==> to < at)
    decreases |w|
  {
    if |w| > 1 {
      assert Dep(order[at], w[1]) in deps;
      var next :| 0 <= next < at && order[next] == w[1];
      WalkTail(deps, w);
      WalkGoesDown(deps, order, w[1..], next);
    } else {
      assert order[at] == w[|w| - 1];
    }
  }

  lemma OrderedIsAcyclic(deps: seq<Dep>, order: seq<nat>)
    requires Ordered(deps, order) && Distinct(order) && forall d | d in deps :: d.blocked in order
    ensures Acyclic(deps)
  {
    forall w ensures !ClosedWalk(deps, w) {
      if ClosedWalk(deps, w) {
        NotClosed(deps, order, w);
      }
    }
  }

  lemma NotClosed(deps: seq<Dep>, order: seq<nat>, w: seq<nat>)
    requires Ordered(deps, order) && Distinct(order) && forall d | d in deps :: d.blocked in order
    requires |w| >= 2 && Walk(deps, w)
    ensures w[0] != w[|w| - 1]
  {
    assert Dep(w[0], w[1]) in deps;
    var at :| 0 <= at < |order| && order[at] == w[0];
    WalkGoesDown(deps, order, w, at);
  }

  /** The blockers of one Task, in the order of the list. */
  function Blockers(deps: seq<Dep>, a: nat): seq<nat>
    decreases |deps|
  {
    if deps == [] then []
    else
      var d := deps[|deps| - 1];
      Blockers(deps[..|deps| - 1], a) + if d.blocked == a then [d.blocker] else []
  }

  lemma {:induction false} BlockersAre(deps: seq<Dep>, a: nat, b: nat)
    ensures b in Blockers(deps, a) <==> Dep(a, b) in deps
    decreases |deps|
  {
    if deps != [] {
      BlockersAre(deps[..|deps| - 1], a, b);
      assert deps == deps[..|deps| - 1] + [deps[|deps| - 1]];
    }
  }

  /** The adjacency lists of the search. */
  method Adjacency(deps: seq<Dep>, n: nat) returns (out: seq<seq<nat>>)
    requires InRange(deps, n)
    ensures |out| == n && forall a | 0 <= a < n :: out[a] == Blockers(deps, a)
  {
    out := seq(n, _ => []);
    var i := 0;
    while i < |deps|
      invariant i <= |deps| && |out| == n
      invariant forall a | 0 <= a < n :: out[a] == Blockers(deps[..i], a)
    {
      assert deps[..i + 1][..i] == deps[..i];
      out := out[deps[i].blocked := out[deps[i].blocked] + [deps[i].blocker]];
      i := i + 1;
    }
    assert deps[..i] == deps;
  }

  datatype Colour = Unvisited | OnPath | Done

  /** The state of one search. `finished` lists the Tasks that are done, in
      the order in which they were. */
  class CycleFinder {
    const deps: seq<Dep>
    const out: seq<seq<nat>>
    const state: array<Colour>
    var path: seq<nat>
    ghost var finished: seq<nat>

    ghost predicate Shape()
      reads this
    {
      && state.Length == |out| && InRange(deps, |out|)
      && forall a | 0 <= a < |out| :: out[a] == Blockers(deps, a)
    }

    ghost predicate Valid()
      reads this, state
    {
      && Shape()
      && Distinct(path) && Walk(deps, path) && (forall p | p in path :: p < |out|)
      && Distinct(finished) && Ordered(deps, finished)
      && (forall i | 0 <= i < |out| :: state[i] == OnPath <==> i in path)
      && (forall i | 0 <= i < |out| :: state[i] == Done <==> i in finished)
    }

    /** The Tasks not yet reached: what the recursion uses up. */
    ghost function Fresh(): set<nat>
      reads state
    {
      set i | 0 <= i < state.Length && state[i] == Unvisited
    }

    constructor (deps: seq<Dep>, out: seq<seq<nat>>)
      requires InRange(deps, |out|) && forall a | 0 <= a < |out| :: out[a] == Blockers(deps, a)
      ensures Valid() && fresh(state) && this.deps == deps && this.out == out && path == [] && finished == []
      ensures forall i | 0 <= i < |out| :: state[i] == Unvisited
    {
      this.deps, this.out, path, finished := deps, out, [], [];
      state := new Colour[|out|](_ => Unvisited);
    }

    /** Put an unvisited Task at the end of the path. */
    method Enter(at: nat)
      requires Valid() && at < |out| && state[at] == Unvisited
      requires path == [] || Dep(path[|path| - 1], at) in deps
      modifies this`path, state
      ensures Valid() && path == old(path) + [at] && state[at] == OnPath
      ensures forall k | 0 <= k < |out| && k != at :: state[k] == old(state[k])
    {
      assert at !in path;
      state[at] := OnPath;
      WalkSnoc(deps, path, at);
      path := path + [at];
    }

    /** Take the last Task off the path once all that block it are done. */
    method Leave(at: nat)
      requires Valid() && path != [] && path[|path| - 1] == at < |out|
      requires forall k | 0 <= k < |out[at]| :: out[at][k] in finished
      modifies this`path, this`finished, state
      ensures Valid() && path == old(path)[..|old(path)| - 1] && state[at] == Done
      ensures forall k | 0 <= k < |out| && k != at :: state[k] == old(state[k])
    {
      assert at in path && at !in finished;
      forall b | Dep(at, b) in deps ensures b in finished { BlockersAre(deps, at, b); }
      path := path[..|path| - 1];
      assert old(path) == path + [at];
      assert forall p | p in path :: p in old(path);
      state[at] := Done;
      OrderedSnoc(deps, finished, at);
      finished := finished + [at];
    }

    /** The part of the path from a Task on, and back to that Task. */
    method Close(next: nat) returns (cycle: seq<nat>)
      requires Valid() && next in path && Dep(path[|path| - 1], next) in deps
      ensures ClosedWalk(deps, cycle) && Distinct(cycle[1..])
    {
      var from := Position(path, next);
      cycle := path[from..] + [next];
      assert cycle[1..] == path[from + 1..] + [next];
    }

    /** Search on from an unvisited Task at the end of the path. */
    method Dfs(at: nat) returns (cycle: Option<seq<nat>>)
      requires Valid() && at < |out| && state[at] == Unvisited
      requires path == [] || Dep(path[|path| - 1], at) in deps
      modifies this, state
      ensures cycle.Some? ==> ClosedWalk(deps, cycle.value) && Distinct(cycle.value[1..])
      ensures cycle.None? ==> Valid() && path == old(path) && state[at] == Done && Kept(old(state[..]))
      decreases |Fresh()|
    {
      hide Valid, ClosedWalk, Distinct;
      ghost var fresh0 := Fresh();
      Enter(at);
      ValidFacts(at);
      var i := 0;
      while i < |out[at]|
        invariant i <= |out[at]| && Valid() && Shape() && path == old(path) + [at]
        invariant Kept(old(state[..])) && Fresh() <= fresh0 - {at}
        invariant forall k | 0 <= k < |out[at]| :: out[at][k] < |out|
        invariant forall k | 0 <= k < i :: state[out[at][k]] == Done
      {
        var next := out[at][i];
        NextFacts(at, next);
        if state[next] == OnPath {
          var walk := Close(next);
          return Some(walk);
        }
        if state[next] == Unvisited {
          SmallerSet(fresh0, Fresh(), at);
          cycle := Dfs(next);
          if cycle.Some? {
            return;
          }
        }
        i := i + 1;
      }
      LeaveFacts(at);
      Leave(at);
      return None;
    }

    lemma ValidFacts(at: nat)
      requires Valid() && at < |out|
      ensures Shape() && forall k | 0 <= k < |out[at]| :: out[at][k] < |out|
    {
      forall k | 0 <= k < |out[at]| ensures out[at][k] < |out| {
        BlockersAre(deps, at, out[at][k]);
        assert Dep(at, out[at][k]) in deps;
      }
    }

    lemma NextFacts(at: nat, next: nat)
      requires Valid() && at < |out| && next < |out| && next in out[at]
      ensures Dep(at, next) in deps && (state[next] == OnPath <==> next in path)
    {
      BlockersAre(deps, at, next);
    }

    lemma LeaveFacts(at: nat)
      requires Valid() && at < |out| && forall k | 0 <= k < |out[at]| :: out[at][k] < |out| && state[out[at][k]] == Done
      ensures forall k | 0 <= k < |out[at]| :: out[at][k] in finished
    {
    }

    /** What was reached before is as it was. */
    ghost predicate Kept(before: seq<Colour>)
      reads this, state
    {
      |before| == state.Length == |out| && forall k | 0 <= k < |out| && before[k] != Unvisited :: state[k] == before[k]
    }
  }

  lemma WalkSnoc(deps: seq<Dep>, w: seq<nat>, at: nat)
    requires Walk(deps, w) && (w == [] || Dep(w[|w| - 1], at) in deps)
    ensures Walk(deps, w + [at])
  {
  }

  lemma OrderedSnoc(deps: seq<Dep>, order: seq<nat>, at: nat)
    requires Ordered(deps, order) && forall b | Dep(at, b) in deps :: b in order
    ensures Ordered(deps, order + [at])
  {
    var all := order + [at];
    forall i, b | 0 <= i < |all| && Dep(all[i], b) in deps ensures b in all[..i] {
      if i < |order| {
        assert all[i] == order[i] && all[..i] == order[..i];
      } else {
        assert all[..i] == order;
      }
    }
  }

  lemma SmallerSet(a: set<nat>, b: set<nat>, x: nat)
    requires b <= a - {x} && x in a
    ensures |b| < |a|
  {
    Cardinality(b, a - {x});
  }

  lemma {:induction false} Cardinality(a: set<nat>, b: set<nat>)
    requires a <= b
    ensures |a| <= |b|
    decreases |a|
  {
    if a != {} {
      var x :| x in a;
      Cardinality(a - {x}, b - {x});
    }
  }

  method Position(path: seq<nat>, p: nat) returns (i: nat)
    requires p in path
    ensures i < |path| && path[i] == p
  {
    i := 0;
    while path[i] != p
      invariant i < |path| && p in path[i..]
      decreases |path| - i
    {
      i := i + 1;
    }
  }
}
