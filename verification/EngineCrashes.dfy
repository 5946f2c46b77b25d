/** What becomes of a Run whose process died in the middle of an attempt
    (crates/attractor-pipeline/src/engine.rs:511-545 and 965-983). */
module EngineCrashes {
  import opened Wrappers
  import opened EngineGraph
  import opened Engine
  import opened EngineSafety
  import opened EngineRuns

  /** From the loop head of an interrupted visit: attempts are left, and a
      quality node may be entered once more. */
  predicate Resumable(cfg: Config, m: Mem) {
    m.tries < MaxAttempts(cfg, m.node) && (IsQuality(cfg, m.node) ==> MayEnter(cfg, m))
  }

  predicate MayEnter(cfg: Config, m: Mem) {
    Count(m.quality, LoopKey(m.node, Upstream(m))) + 1 <= cfg.maxFix(m.node)
  }

  /** The visit as the resumed process takes it up: at a quality node it is
      counted once more than without the crash. */
  function TakenUp(cfg: Config, m: Mem): Mem { if IsQuality(cfg, m.node) then Entered(m) else m }

  /** The loop head of an interrupted visit. */
  ghost predicate AtVisit(cfg: Config, m: Mem) {
    && m.active == Some(m.node) && m.cost <= cfg.maxBudget && !(IsExit(cfg, m.node) && IsQuality(cfg, m.node))
    && (IsExit(cfg, m.node) ==> Failing(cfg, m.outcomes) == {})
  }

  lemma RunningAtVisit(cfg: Config, w: World)
    requires Valid(cfg) && Inv(cfg, w) && w.proc.Running?
    ensures AtVisit(cfg, Interrupted(cfg, w.proc.m)) && w.disk == Some(Save(cfg, Interrupted(cfg, w.proc.m)))
  {
    hide Counted, Keyed, Linked, WalkOf, Tried, Budgeted, Derived, Afforded, Contextual, LogOk, DiskOk, Failing;
    assert w.proc.m.node in cfg.nodes;
  }

  /** What the loop makes of such a head. */
  lemma HeadOfVisit(cfg: Config, w: World, input: Input)
    requires w.proc.Top? && AtVisit(cfg, w.proc.m) && (input.stop ==> IsExit(cfg, w.proc.m.node))
    ensures var m := w.proc.m;
      TickStep(cfg, w, input)
      == w.(proc := if Resumable(cfg, m) then Ready(TakenUp(cfg, m), true)
                    else if IsQuality(cfg, m.node) && !MayEnter(cfg, m) then Failed(QualityExhausted)
                    else Failed(RetriesExhausted))
  {
    hide Failing, LoopKey, Save;
  }

  /** MAIN RESULT. After a crash in the middle of an attempt, the resumed
      process gets ready for the same visit if and only if attempts are left
      and, at a quality node, `max_fix_iterations` allows one more entry than
      was counted; otherwise it fails with the limit that was reached. */
  lemma ResumedVisit(cfg: Config, acts: seq<Label>, input: Input)
    requires Valid(cfg) && Run(cfg, EMPTY, acts).proc.Running?
    requires input.stop ==> IsExit(cfg, Run(cfg, EMPTY, acts).proc.m.node)
    ensures var w := Run(cfg, EMPTY, acts); var m := Interrupted(cfg, w.proc.m);
      Step(cfg, CrashAndResume(cfg, w), Tick(input))
      == w.(proc := if Resumable(cfg, m) then Ready(TakenUp(cfg, m), true)
                    else if IsQuality(cfg, m.node) && !MayEnter(cfg, m) then Failed(QualityExhausted)
                    else Failed(RetriesExhausted))
  {
    hide Run, Inv, AtVisit, Resumable, TakenUp, MayEnter, CrashAndResume, TickStep, Valid;
    RunKeeps(cfg, acts);
    var w := Run(cfg, EMPTY, acts);
    RunningAtVisit(cfg, w);
    CrashMidAttempt(cfg, acts);
    HeadOfVisit(cfg, CrashAndResume(cfg, w), input);
  }

  // ---------------------------------------------------------------------
  // Runs that cannot go on
  // ---------------------------------------------------------------------

  predicate CanBegin(cfg: Config, m: Mem) { Resumable(cfg, m) && m.steps < cfg.maxSteps }

  /** Nothing but failing, stopping and dying happens to such a Run. */
  ghost predicate Stuck(cfg: Config, m: Mem, log: seq<Event>, w: World) {
    && w.log == log && w.disk == Some(Save(cfg, m))
    && match w.proc
       case Top(t) => t == m
       case Stopped(t) => t == m
       case Ready(t, _) => t.steps == m.steps >= cfg.maxSteps
       case Running(_) => false
       case Completed(_) => false
       case _ => true
  }

  lemma StuckTop(cfg: Config, m: Mem, log: seq<Event>, w: World, input: Input)
    requires AtVisit(cfg, m) && !CanBegin(cfg, m) && Stuck(cfg, m, log, w) && w.proc.Top?
    ensures Stuck(cfg, m, log, TickStep(cfg, w, input))
  {
    hide Save, Resumable, MayEnter;
    if input.stop && !IsExit(cfg, m.node) {
      StopAtVisit(cfg, w, input);
    } else {
      HeadOfVisit(cfg, w, input);
      TakenUpSteps(cfg, m);
    }
  }

  lemma StopAtVisit(cfg: Config, w: World, input: Input)
    requires w.proc.Top? && AtVisit(cfg, w.proc.m) && input.stop && !IsExit(cfg, w.proc.m.node)
    ensures TickStep(cfg, w, input)
         == if input.written then w.(proc := Stopped(w.proc.m), disk := Some(Save(cfg, w.proc.m)))
            else w.(proc := Failed(SaveFailed))
  {
    hide Save;
  }

  lemma TakenUpSteps(cfg: Config, m: Mem)
    ensures TakenUp(cfg, m).steps == m.steps
  {
  }

  lemma StuckStep(cfg: Config, m: Mem, log: seq<Event>, w: World, act: Label)
    requires AtVisit(cfg, m) && !CanBegin(cfg, m) && Stuck(cfg, m, log, w)
    requires Contextual(cfg, m.ctx) && m.node in cfg.nodes
    ensures Stuck(cfg, m, log, Step(cfg, w, act))
  {
    hide Save, Restore, Compatible, AtVisit, CanBegin, TopStep;
    RestoreSave(cfg, m);
    SavedNode(cfg, m);
    if act.Tick? && w.proc.Top? { StuckTop(cfg, m, log, w, act.input); }
  }

  lemma SavedNode(cfg: Config, m: Mem)
    ensures Save(cfg, m).currentNode == m.node
  {
  }

  lemma {:induction false} StuckForGood(cfg: Config, m: Mem, log: seq<Event>, w: World, more: seq<Label>)
    requires AtVisit(cfg, m) && !CanBegin(cfg, m) && Stuck(cfg, m, log, w)
    requires Contextual(cfg, m.ctx) && m.node in cfg.nodes
    ensures Stuck(cfg, m, log, Run(cfg, w, more))
    decreases |more|
  {
    hide Stuck, Step, AtVisit, CanBegin, Contextual;
    if more != [] {
      StuckForGood(cfg, m, log, w, more[..|more| - 1]);
      StuckStep(cfg, m, log, Run(cfg, w, more[..|more| - 1]), more[|more| - 1]);
    }
  }

  /** Interrupted memory is a loop head like any other. */
  lemma InterruptedIsSound(cfg: Config, w: World)
    requires Inv(cfg, w) && w.proc.Running?
    ensures Contextual(cfg, Interrupted(cfg, w.proc.m).ctx) && Interrupted(cfg, w.proc.m).node in cfg.nodes
  {
    hide Counted, Keyed, Linked, WalkOf, Tried, Gated, Derived, Budgeted, Afforded, Contextual, LogOk, DiskOk;
  }

  /** MAIN RESULT. After a crash in the middle of an attempt, some continuation
      begins another attempt, or does anything else that leaves a trace, if and
      only if attempts are left, `max_steps` is not reached and, at a quality
      node, one more entry is allowed. Otherwise the Run is lost for good. */
  lemma CrashedRunGoesOn(cfg: Config, acts: seq<Label>)
    requires Valid(cfg) && Run(cfg, EMPTY, acts).proc.Running?
    ensures var w := Run(cfg, EMPTY, acts);
      (exists more :: Run(cfg, Step(cfg, w, Crash), more).log != w.log) <==> CanBegin(cfg, Interrupted(cfg, w.proc.m))
  {
    hide Inv, Valid, AtVisit, Stuck, CanBegin, Contextual, Interrupted;
    RunKeeps(cfg, acts);
    var w := Run(cfg, EMPTY, acts);
    var m := Interrupted(cfg, w.proc.m);
    RunningAtVisit(cfg, w);
    InterruptedIsSound(cfg, w);
    if CanBegin(cfg, m) {
      BeginsAgain(cfg, acts);
    } else {
      DownIsStuck(cfg, m, w);
      forall more ensures Run(cfg, Step(cfg, w, Crash), more).log == w.log {
        StuckForGood(cfg, m, w.log, Step(cfg, w, Crash), more);
        StuckLog(cfg, m, w.log, Run(cfg, Step(cfg, w, Crash), more));
      }
    }
  }

  lemma DownIsStuck(cfg: Config, m: Mem, w: World)
    requires w.proc.Running? && w.disk == Some(Save(cfg, m))
    ensures Stuck(cfg, m, w.log, Step(cfg, w, Crash))
  {
  }

  lemma StuckLog(cfg: Config, m: Mem, log: seq<Event>, w: World)
    requires Stuck(cfg, m, log, w)
    ensures w.log == log
  {
  }

  const GO: Input := Input(false, "", Erred(false), true)

  lemma BeginsAgain(cfg: Config, acts: seq<Label>)
    requires Valid(cfg) && Run(cfg, EMPTY, acts).proc.Running?
    requires CanBegin(cfg, Interrupted(cfg, Run(cfg, EMPTY, acts).proc.m))
    ensures var w := Run(cfg, EMPTY, acts); exists more :: Run(cfg, Step(cfg, w, Crash), more).log != w.log
  {
    hide Run, Valid, Inv, AtVisit, CanBegin, Resumable, Interrupted, TakenUp, Step;
    var w := Run(cfg, EMPTY, acts);
    var down := Step(cfg, w, Crash);
    RunKeeps(cfg, acts);
    RunningAtVisit(cfg, w);
    ResumedVisit(cfg, acts, GO);
    RunThree(cfg, down, Start, Tick(GO), Tick(GO));
    TakenUpBegins(cfg, Interrupted(cfg, w.proc.m), w);
    assert Run(cfg, down, [Start, Tick(GO), Tick(GO)]).log != w.log;
  }

  lemma TakenUpBegins(cfg: Config, m: Mem, w: World)
    requires AtVisit(cfg, m) && CanBegin(cfg, m)
    ensures Resumable(cfg, m) && Step(cfg, w.(proc := Ready(TakenUp(cfg, m), true)), Tick(GO)).log != w.log
  {
    hide Save, Resumable;
    var began := Began(TakenUp(cfg, m).node, true);
    assert |w.log + [began]| == |w.log| + 1;
  }

  lemma RunSnoc(cfg: Config, w: World, acts: seq<Label>, act: Label)
    ensures Run(cfg, w, acts + [act]) == Step(cfg, Run(cfg, w, acts), act)
  {
    hide Step;
    assert (acts + [act])[..|acts|] == acts;
  }

  lemma RunThree(cfg: Config, w: World, a: Label, b: Label, c: Label)
    ensures Run(cfg, w, [a, b, c]) == Step(cfg, Step(cfg, Step(cfg, w, a), b), c)
  {
    hide Step;
    RunSnoc(cfg, w, [a, b], c);
    RunSnoc(cfg, w, [a], b);
    RunSnoc(cfg, w, [], a);
    assert [a, b] + [c] == [a, b, c] && [a] + [b] == [a, b] && [] + [a] == [a];
  }

  // ---------------------------------------------------------------------
  // A Run lost by one crash
  // ---------------------------------------------------------------------

  /** One quality node that may be entered once and try three times. */
  function OneEntry(): Config {
    var node := Node(false, false, true, 3, false, None, None);
    Config(map["q" := node], [], "q", None, None, map[], map[], 10, 1.0, _ => 1, (_, _, _) => false, "")
  }

  const FIRST: seq<Label> := [Start, Tick(GO), Tick(GO)]

  lemma FirstAttemptRuns()
    ensures Valid(OneEntry()) && Run(OneEntry(), EMPTY, FIRST).proc.Running?
    ensures var m := Run(OneEntry(), EMPTY, FIRST).proc.m;
      && m.tries == 1 && MaxAttempts(OneEntry(), m.node) == 3 && Interrupted(OneEntry(), m) == m
      && IsQuality(OneEntry(), m.node) && !MayEnter(OneEntry(), m)
  {
    var cfg := OneEntry();
    RunThree(cfg, EMPTY, Start, Tick(GO), Tick(GO));
    var first := Fresh(cfg);
    assert Step(cfg, EMPTY, Start).proc == Top(first);
    var ready := Entered(first).(active := Some("q"), tries := 0);
    assert Step(cfg, Step(cfg, EMPTY, Start), Tick(GO)).proc == Ready(ready, true);
    assert Count(ready.quality, LoopKey("q", Upstream(ready))) == 1;
  }

  /** MAIN RESULT. With `max_fix_iterations` 1, a crash in the first attempt at
      a quality node ends the Run: the resumed process counts the visit again
      and fails, each time, with two attempts unused. */
  lemma OneCrashMayEndRun(more: seq<Label>)
    ensures var w := Run(OneEntry(), EMPTY, FIRST);
      && w.proc.Running? && w.proc.m.tries < MaxAttempts(OneEntry(), w.proc.m.node)
      && Step(OneEntry(), CrashAndResume(OneEntry(), w), Tick(GO)).proc == Failed(QualityExhausted)
      && Run(OneEntry(), Step(OneEntry(), w, Crash), more).log == w.log
  {
    hide Run, Step, CrashAndResume, Valid, MayEnter, Interrupted;
    FirstAttemptRuns();
    ResumedVisit(OneEntry(), FIRST, GO);
    CrashedRunGoesOn(OneEntry(), FIRST);
  }
}
