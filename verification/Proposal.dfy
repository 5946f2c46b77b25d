/** The draft of an Epic as the Monitor edits it
    (crates/attractor-monitor/src/proposal.rs:73-150). A Task's other texts
    are one opaque field. */
module Proposal {
  import opened Wrappers
  import opened Dependencies

  datatype Task = Task(title: string, body: string)

  /** `char::is_whitespace`, as `trim` uses it. */
  predicate IsSpace(c: char) {
    '\t' <= c <= '\r' || c == ' ' || c == '\U{85}' || c == '\U{A0}' || c == '\U{1680}' || '\U{2000}' <= c <= '\U{200A}'
    || c == '\U{2028}' || c == '\U{2029}' || c == '\U{202F}' || c == '\U{205F}' || c == '\U{3000}'
  }

  predicate Empty(title: string) { forall c | c in title :: IsSpace(c) }

  datatype Verdict =
    | Accepted
    | UnsupportedVersion
    | NoTasks
    | EmptyTitle(task: nat)
    | IndexOutOfRange(d: Dep)
    | SelfDependency(task: nat)
    | Cycle(walk: seq<nat>)

  /** The first dependency that is not in order. */
  ghost predicate FirstFault(deps: seq<Dep>, n: nat, k: nat) {
    k < |deps| && !DepOk(deps[k], n) && forall j | 0 <= j < k :: DepOk(deps[j], n)
  }

  predicate DepOk(d: Dep, n: nat) { d.blocked < n && d.blocker < n && d.blocked != d.blocker }

  /** What the CLI and the editor accept. */
  ghost predicate Acceptable(version: nat, tasks: seq<Task>, deps: seq<Dep>) {
    && version == 1 && tasks != []
    && (forall t | t in tasks :: !Empty(t.title))
    && (forall d | d in deps :: DepOk(d, |tasks|))
    && Acyclic(deps)
  }

  // ---------------------------------------------------------------------
  // Removing a Task
  // ---------------------------------------------------------------------

  /** The new number of a Task that stays when Task `i` goes. */
  function Shift(i: nat, k: nat): nat
    requires k != i
  {
    if k > i then k - 1 else k
  }

  predicate Mentions(d: Dep, i: nat) { d.blocked == i || d.blocker == i }

  function Renumbered(deps: seq<Dep>, i: nat): seq<Dep>
    decreases |deps|
  {
    if deps == [] then []
    else
      var d := deps[|deps| - 1];
      var rest := Renumbered(deps[..|deps| - 1], i);
      if Mentions(d, i) then rest else rest + [Dep(Shift(i, d.blocked), Shift(i, d.blocker))]
  }

  function Kept(deps: seq<Dep>, i: nat): seq<Dep>
    decreases |deps|
  {
    if deps == [] then []
    else
      var rest := Kept(deps[..|deps| - 1], i);
      if Mentions(deps[|deps| - 1], i) then rest else rest + [deps[|deps| - 1]]
  }

  function Lowered(d: Dep, i: nat): Dep {
    Dep(if d.blocked > i then d.blocked - 1 else d.blocked, if d.blocker > i then d.blocker - 1 else d.blocker)
  }

  lemma {:induction false} RenumberedIs(deps: seq<Dep>, i: nat)
    ensures |Renumbered(deps, i)| == |Kept(deps, i)|
    ensures forall j | 0 <= j < |Kept(deps, i)| :: Renumbered(deps, i)[j] == Lowered(Kept(deps, i)[j], i)
    decreases |deps|
  {
    if deps != [] { RenumberedIs(deps[..|deps| - 1], i); }
  }

  /** The dependencies that are left are exactly the old ones between Tasks
      that stay, under their new numbers. */
  lemma {:induction false} RenumberedEdges(deps: seq<Dep>, i: nat, a: nat, b: nat)
    requires a != i && b != i
    ensures Dep(Shift(i, a), Shift(i, b)) in Renumbered(deps, i) <==> Dep(a, b) in deps
    decreases |deps|
  {
    if deps != [] {
      var rest := deps[..|deps| - 1];
      assert deps == rest + [deps[|deps| - 1]];
      RenumberedEdges(rest, i, a, b);
    }
  }

  /** Each dependency on its own is dropped or renumbered; order and repeats
      stay as they are. */
  lemma {:induction false} RenumberedConcat(a: seq<Dep>, b: seq<Dep>, i: nat)
    ensures Renumbered(a + b, i) == Renumbered(a, i) + Renumbered(b, i)
    ensures |b| == 1 ==> Renumbered(b, i) == if b[0].blocked == i || b[0].blocker == i then [] else [Lowered(b[0], i)]
    decreases |b|
  {
    if b == [] {
      assert a + b == a;
    } else {
      assert (a + b)[..|a + b| - 1] == a + b[..|b| - 1];
      RenumberedConcat(a, b[..|b| - 1], i);
    }
  }

  /** And there are no others. */
  lemma {:induction false} RenumberedFrom(deps: seq<Dep>, i: nat, d: Dep)
    requires d in Renumbered(deps, i)
    ensures Dep(Unshift(i, d.blocked), Unshift(i, d.blocker)) in deps
    decreases |deps|
  {
    var rest := deps[..|deps| - 1];
    assert deps == rest + [deps[|deps| - 1]];
    if d in Renumbered(rest, i) { RenumberedFrom(rest, i, d); }
  }

  /** The old number of a Task that stayed. */
  function Unshift(i: nat, k: nat): (r: nat)
    ensures r != i && Shift(i, r) == k
  {
    if k >= i then k + 1 else k
  }

  function Unshifted(i: nat, w: seq<nat>): seq<nat> { seq(|w|, j requires 0 <= j < |w| => Unshift(i, w[j])) }

  /** MAIN RESULT. Removing a Task keeps every other Task and the dependency
      graph between them: each number after it names the Task it named before,
      an edge is there exactly if it was, and what was acceptable stays so as
      long as a Task is left. */
  lemma RemovalKeepsGraph(version: nat, tasks: seq<Task>, deps: seq<Dep>, i: nat)
    requires i < |tasks|
    ensures var (tasks', deps') := (tasks[..i] + tasks[i + 1..], Renumbered(deps, i));
      && (forall k | 0 <= k < |tasks| && k != i :: tasks'[Shift(i, k)] == tasks[k])
      && (forall a, b | a != i && b != i :: Dep(Shift(i, a), Shift(i, b)) in deps' <==> Dep(a, b) in deps)
      && (Acceptable(version, tasks, deps) && |tasks| > 1 ==> Acceptable(version, tasks', deps'))
  {
    hide Renumbered, Acceptable;
    forall a, b | a != i && b != i ensures Dep(Shift(i, a), Shift(i, b)) in Renumbered(deps, i) <==> Dep(a, b) in deps {
      RenumberedEdges(deps, i, a, b);
    }
    if Acceptable(version, tasks, deps) && |tasks| > 1 { RemovalKeepsAcceptable(version, tasks, deps, i); }
  }

  lemma RemovalKeepsAcceptable(version: nat, tasks: seq<Task>, deps: seq<Dep>, i: nat)
    requires i < |tasks| && |tasks| > 1 && Acceptable(version, tasks, deps)
    ensures Acceptable(version, tasks[..i] + tasks[i + 1..], Renumbered(deps, i))
  {
    hide Renumbered, Acyclic, Empty;
    forall d | d in Renumbered(deps, i) ensures DepOk(d, |tasks| - 1) { RenumberedFrom(deps, i, d); }
    AcyclicStays(deps, i);
  }

  lemma AcyclicStays(deps: seq<Dep>, i: nat)
    requires Acyclic(deps)
    ensures Acyclic(Renumbered(deps, i))
  {
    forall w ensures !ClosedWalk(Renumbered(deps, i), w) {
      assert !ClosedWalk(deps, Unshifted(i, w));
      if Walk(Renumbered(deps, i), w) { UnshiftWalk(deps, i, w); }
    }
  }

  lemma UnshiftWalk(deps: seq<Dep>, i: nat, w: seq<nat>)
    requires Walk(Renumbered(deps, i), w)
    ensures Walk(deps, Unshifted(i, w))
  {
    var u := Unshifted(i, w);
    forall j | 0 <= j < |u| - 1 ensures Dep(u[j], u[j + 1]) in deps {
      RenumberedFrom(deps, i, Dep(w[j], w[j + 1]));
    }
  }

  class Proposal {
    var version: nat
    var tasks: seq<Task>
    var dependencies: seq<Dep>

    constructor (version: nat, tasks: seq<Task>, dependencies: seq<Dep>)
      ensures this.version == version && this.tasks == tasks && this.dependencies == dependencies
    {
      this.version, this.tasks, this.dependencies := version, tasks, dependencies;
    }

    /** Drop Task `i` and every dependency that mentions it; renumber. */
    method RemoveTask(i: nat)
      modifies this`tasks, this`dependencies
      ensures i >= |old(tasks)| ==> tasks == old(tasks) && dependencies == old(dependencies)
      ensures i < |old(tasks)| ==>
                && tasks == old(tasks)[..i] + old(tasks)[i + 1..]
                && dependencies == Renumbered(old(dependencies), i)
    {
      if i >= |tasks| {
        return;
      }
      tasks := tasks[..i] + tasks[i + 1..];
      Retain(i);
      RenumberAll(i, old(dependencies));
    }

    /** Keep the dependencies that do not mention Task `i`. */
    method Retain(i: nat)
      modifies this`dependencies
      ensures dependencies == Kept(old(dependencies), i)
    {
      var k, kept := 0, [];
      while k < |dependencies|
        invariant k <= |dependencies| && dependencies == old(dependencies) && kept == Kept(dependencies[..k], i)
      {
        assert dependencies[..k + 1][..k] == dependencies[..k];
        if !Mentions(dependencies[k], i) {
          kept := kept + [dependencies[k]];
        }
        k := k + 1;
      }
      assert dependencies[..k] == dependencies;
      dependencies := kept;
    }

    /** Count down every number above `i`, in place. */
    method RenumberAll(i: nat, ghost before: seq<Dep>)
      requires dependencies == Kept(before, i)
      modifies this`dependencies
      ensures dependencies == Renumbered(before, i)
    {
      var k := 0;
      while k < |dependencies|
        invariant k <= |dependencies| == |old(dependencies)|
        invariant forall j | k <= j < |dependencies| :: dependencies[j] == old(dependencies)[j]
        invariant forall j | 0 <= j < k :: dependencies[j] == Lowered(old(dependencies)[j], i)
      {
        var d := dependencies[k];
        if d.blocked > i {
          d := d.(blocked := d.blocked - 1);
        }
        if d.blocker > i {
          d := d.(blocker := d.blocker - 1);
        }
        dependencies := dependencies[k := d];
        k := k + 1;
      }
      RenumberedIs(before, i);
    }

    /** Every check in order; the first that fails is reported. */
    method Validate() returns (r: Verdict)
      ensures r.Accepted? <==> Acceptable(version, tasks, dependencies)
      ensures r.UnsupportedVersion? <==> version != 1
      ensures r.NoTasks? <==> version == 1 && tasks == []
      ensures r.EmptyTitle? <==> version == 1 && exists k :: 0 <= k < |tasks| && Empty(tasks[k].title)
      ensures r.EmptyTitle? ==> r.task < |tasks| && Empty(tasks[r.task].title)
                                && forall k | 0 <= k < r.task :: !Empty(tasks[k].title)
      ensures r.IndexOutOfRange? || r.SelfDependency? <==>
                version == 1 && tasks != [] && (forall t | t in tasks :: !Empty(t.title))
                && exists k :: 0 <= k < |dependencies| && !DepOk(dependencies[k], |tasks|)
      ensures r.IndexOutOfRange? ==>
                exists k: nat :: FirstFault(dependencies, |tasks|, k) && r.d == dependencies[k]
                            && (r.d.blocked >= |tasks| || r.d.blocker >= |tasks|)
      ensures r.SelfDependency? ==>
                exists k: nat :: FirstFault(dependencies, |tasks|, k) && dependencies[k] == Dep(r.task, r.task) && r.task < |tasks|
      ensures r.Cycle? ==> ClosedWalk(dependencies, r.walk) && Distinct(r.walk[1..]) && |r.walk| >= 3
    {
      if version != 1 {
        return UnsupportedVersion;
      }
      if tasks == [] {
        return NoTasks;
      }
      var i := 0;
      while i < |tasks|
        invariant i <= |tasks| && forall k | 0 <= k < i :: !Empty(tasks[k].title)
      {
        if Empty(tasks[i].title) {
          assert tasks[i] in tasks;
          return EmptyTitle(i);
        }
        i := i + 1;
      }
      i := 0;
      while i < |dependencies|
        invariant i <= |dependencies| && forall k | 0 <= k < i :: DepOk(dependencies[k], |tasks|)
      {
        var d := dependencies[i];
        assert d in dependencies;
        assert !DepOk(d, |tasks|) ==> FirstFault(dependencies, |tasks|, i);
        if d.blocked >= |tasks| || d.blocker >= |tasks| {
          return IndexOutOfRange(d);
        }
        if d.blocked == d.blocker {
          return SelfDependency(d.blocked);
        }
        i := i + 1;
      }
      var cycle := FindCycle(dependencies, |tasks|);
      match cycle
      case None => return Accepted;
      case Some(w) => return Cycle(w);
    }
  }

  /** Search from every Task that no earlier search reached. */
  method FindCycle(deps: seq<Dep>, n: nat) returns (cycle: Option<seq<nat>>)
    requires InRange(deps, n)
    ensures cycle.None? <==> Acyclic(deps)
    ensures cycle.Some? ==> ClosedWalk(deps, cycle.value) && Distinct(cycle.value[1..])
  {
    var out := Adjacency(deps, n);
    var finder := new CycleFinder(deps, out);
    var start := 0;
    while start < n
      invariant start <= n && finder.Valid() && finder.path == [] && finder.deps == deps && finder.out == out
      invariant fresh(finder) && fresh(finder.state)
      invariant forall i | 0 <= i < start :: finder.state[i] == Done
    {
      if finder.state[start] == Unvisited {
        cycle := finder.Dfs(start);
        if cycle.Some? {
          return;
        }
      }
      start := start + 1;
    }
    OrderedIsAcyclic(deps, finder.finished);
    return None;
  }
}
