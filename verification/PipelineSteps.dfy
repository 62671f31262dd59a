/**
 * The steps of the diff pipeline, what holds after each of them, and what a checkpoint keeps. The stages are arbitrary
 * deterministic functions; only the cleanups of the convergence loop are the real ones.
 */
module PipelineSteps {
  import opened Options
  import opened Items
  import opened Matching

  /** The steps in execution order. */
  type Step = s: nat | s <= 15

  const NO_STEP: Step := 0
  const EQUAL_MATCHES: Step := 1
  const DIRTY_HEURISTICS: Step := 2
  const SAME_NAME: Step := 3
  const REMAINING_FUNCTIONS: Step := 4
  const BEST_CATEGORY: Step := 5
  const PARTIAL_CATEGORY: Step := 6
  const SMALL_DIFFERENCES: Step := 7
  const LOOP_CLEANUP_TOP: Step := 8
  const MATCHES_DIFFING: Step := 9
  const RELATED_MATCHES: Step := 10
  const RELATED_COMPILATION_UNIT: Step := 11
  const LOCALLY_AFFINE: Step := 12
  const LOOP_CLEANUP_BOTTOM: Step := 13
  const FINAL_PASS: Step := 14
  const FIND_UNMATCHED: Step := 15

  predicate InLoop(step: Step) {
    LOOP_CLEANUP_TOP <= step <= LOOP_CLEANUP_BOTTOM
  }

  const MAX_ITERATION: nat := 1000000

  datatype Cursor = Cursor(done: Step, iteration: nat, skipOthers: bool, oldTotal: nat) {
    /** The test a cursor has to pass when a checkpoint is loaded. */
    predicate Accepted() {
      var categories := BEST_CATEGORY <= done <= LOOP_CLEANUP_BOTTOM;
      && done != NO_STEP
      && iteration <= MAX_ITERATION
      && !(skipOthers && (done < DIRTY_HEURISTICS || categories))
      && !(!skipOthers && done == REMAINING_FUNCTIONS)
      && (InLoop(done) || iteration == 0)
    }
  }

  datatype Config = Config(experimental: bool, ignoreAllNames: bool, slowHeuristics: bool)

  /** `prepared` is the processor flag the ratio engine was prepared for; it is never written to a checkpoint. */
  datatype Session<R, F> = Session(
    matches: Matches,
    rest: R,
    sameProcessor: bool,
    iteration: Option<nat>,
    prepared: Option<bool>,
    choosers: Option<F>,
    unmatched: Option<F>)

  type Stage<!R> = (Matches, R, Option<bool>) -> (Matches, R)
  type LoopStage<!R> = (Matches, R, Option<bool>, nat) -> (Matches, R)

  datatype Stages<!R, !F> = Stages(
    versionOk: bool,
    equalMatches: Stage<R>,
    sameProcessor: (Matches, R) -> bool,
    dirty: Stage<R>,
    dirtyFired: (Matches, R, Option<bool>) -> bool,
    sameName: Stage<R>,
    remaining: Stage<R>,
    best: Stage<R>,
    partial: Stage<R>,
    small: Stage<R>,
    diffing: LoopStage<R>,
    related: LoopStage<R>,
    relatedUnit: LoopStage<R>,
    affine: LoopStage<R>,
    finalPass: Stage<R>,
    choosers: (Matches, R) -> F,
    unmatched: (Matches, R, Option<F>) -> F)

  /** Where a run stands just after a completed step. */
  datatype Point<R, F> = Point(cursor: Cursor, session: Session<R, F>)

  // ---- The uninterrupted run, step by step ----

  function RunStage<R, F>(f: Stage<R>, s: Session<R, F>): Session<R, F> {
    var r := f(s.matches, s.rest, s.prepared);
    s.(matches := r.0, rest := r.1)
  }

  function RunLoopStage<R, F>(f: LoopStage<R>, s: Session<R, F>, k: nat): Session<R, F> {
    var r := f(s.matches, s.rest, s.prepared, k);
    s.(matches := r.0, rest := r.1)
  }

  function Prepare<R, F>(s: Session<R, F>): Session<R, F> {
    s.(prepared := Some(s.sameProcessor))
  }

  function FirstPoint<R, F>(st: Stages<R, F>, s: Session<R, F>): Point<R, F> {
    Point(Cursor(EQUAL_MATCHES, 0, false, 0), RunStage(st.equalMatches, s.(iteration := None)))
  }

  function NextStep<R, F>(cfg: Config, p: Point<R, F>): Step
    requires |p.session.matches.lists| == 3
  {
    var afterNames := if p.cursor.skipOthers then REMAINING_FUNCTIONS else BEST_CATEGORY;
    var d := p.cursor.done;
    if d == NO_STEP then EQUAL_MATCHES
    else if d == EQUAL_MATCHES then DIRTY_HEURISTICS
    else if d == DIRTY_HEURISTICS then if cfg.ignoreAllNames then afterNames else SAME_NAME
    else if d == SAME_NAME then afterNames
    else if d == REMAINING_FUNCTIONS then FINAL_PASS
    else if d == LOOP_CLEANUP_BOTTOM then
      if p.session.matches.TotalMatched() <= p.cursor.oldTotal then FINAL_PASS else LOOP_CLEANUP_TOP
    else if d == MATCHES_DIFFING && !cfg.slowHeuristics then RELATED_COMPILATION_UNIT
    else if d == FIND_UNMATCHED then FIND_UNMATCHED
    else d + 1
  }

  /** The number of the loop iteration that starts after p. */
  function NextIteration<R, F>(p: Point<R, F>): nat {
    if p.cursor.done == LOOP_CLEANUP_BOTTOM then p.cursor.iteration + 1 else 0
  }

  function DirtyStep<R, F>(cfg: Config, st: Stages<R, F>, p: Point<R, F>): Point<R, F> {
    var s := Prepare(p.session.(sameProcessor := st.sameProcessor(p.session.matches, p.session.rest)));
    if cfg.experimental then
      Point(p.cursor.(done := DIRTY_HEURISTICS, skipOthers := st.dirtyFired(s.matches, s.rest, s.prepared)),
        RunStage(st.dirty, s))
    else
      Point(p.cursor.(done := DIRTY_HEURISTICS), s)
  }

  function TopStep<R, F>(p: Point<R, F>): Point<R, F>
    requires |p.session.matches.lists| == 3
  {
    var k, m := NextIteration(p), p.session.matches.CleanedUp();
    Point(Cursor(LOOP_CLEANUP_TOP, k, p.cursor.skipOthers, m.TotalMatched()),
      p.session.(matches := m, iteration := Some(k)))
  }

  function Leave<R, F>(p: Point<R, F>): Point<R, F> {
    Point(p.cursor.(iteration := 0), p.session.(iteration := None))
  }

  function FinalStep<R, F>(st: Stages<R, F>, q: Point<R, F>): Point<R, F> {
    var s := RunStage(st.finalPass, q.session);
    Point(q.cursor.(done := FINAL_PASS), s.(choosers := Some(st.choosers(s.matches, s.rest))))
  }

  function UnmatchedStep<R, F>(st: Stages<R, F>, q: Point<R, F>): Point<R, F> {
    var s := q.session;
    Point(q.cursor.(done := FIND_UNMATCHED), s.(unmatched := Some(st.unmatched(s.matches, s.rest, s.choosers))))
  }

  function Enter<R, F>(cfg: Config, st: Stages<R, F>, p: Point<R, F>, step: Step): Point<R, F>
    requires |p.session.matches.lists| == 3
  {
    var c, s, k := p.cursor.(done := step), p.session, p.cursor.iteration;
    if step == DIRTY_HEURISTICS then DirtyStep(cfg, st, p)
    else if step == SAME_NAME then Point(c, RunStage(st.sameName, s))
    else if step == REMAINING_FUNCTIONS then Point(c, RunStage(st.remaining, s))
    else if step == BEST_CATEGORY then Point(c, RunStage(st.best, s))
    else if step == PARTIAL_CATEGORY then Point(c, RunStage(st.partial, s))
    else if step == SMALL_DIFFERENCES then Point(c, RunStage(st.small, s))
    else if step == LOOP_CLEANUP_TOP then TopStep(p)
    else if step == MATCHES_DIFFING then Point(c, RunLoopStage(st.diffing, s, k))
    else if step == RELATED_MATCHES then Point(c, RunLoopStage(st.related, s, k))
    else if step == RELATED_COMPILATION_UNIT then Point(c, RunLoopStage(st.relatedUnit, s, k))
    else if step == LOCALLY_AFFINE then Point(c, RunLoopStage(st.affine, s, k))
    else if step == LOOP_CLEANUP_BOTTOM then Point(c, s.(matches := s.matches.CleanedUp()))
    else if step == FINAL_PASS then FinalStep(st, Leave(p))
    else if step == FIND_UNMATCHED then UnmatchedStep(st, Leave(p))
    else p
  }

  function Next<R, F>(cfg: Config, st: Stages<R, F>, p: Point<R, F>): Point<R, F> {
    if p.cursor.done == FIND_UNMATCHED || |p.session.matches.lists| != 3 then p else Enter(cfg, st, p, NextStep(cfg, p))
  }

  function Iterate<R, F>(cfg: Config, st: Stages<R, F>, p: Point<R, F>, n: nat): Point<R, F> {
    Repeat(x => Next(cfg, st, x), p, n)
  }

  function Repeat<T>(f: T -> T, x: T, n: nat): T {
    if n == 0 then x else f(Repeat(f, x, n - 1))
  }

  lemma {:induction false} RepeatJoins<T>(f: T -> T, x: T, m: nat, n: nat)
    ensures Repeat(f, Repeat(f, x, m), n) == Repeat(f, x, m + n)
  {
    if n > 0 {
      RepeatJoins(f, x, m, n - 1);
    }
  }

  lemma {:induction false} FixedStays<T>(f: T -> T, x: T, n: nat)
    requires f(x) == x
    ensures Repeat(f, x, n) == x
  {
    if n > 0 {
      FixedStays(f, x, n - 1);
    }
  }

  /** A run reaches one fixed point only. */
  lemma {:induction false} OneFixedPoint<T>(f: T -> T, x: T, m: nat, n: nat)
    requires f(Repeat(f, x, m)) == Repeat(f, x, m) && f(Repeat(f, x, n)) == Repeat(f, x, n)
    ensures Repeat(f, x, m) == Repeat(f, x, n)
  {
    if m <= n {
      RepeatJoins(f, x, m, n - m);
      FixedStays(f, Repeat(f, x, m), n - m);
    } else {
      RepeatJoins(f, x, n, m - n);
      FixedStays(f, Repeat(f, x, n), m - n);
    }
  }

  // ---- What holds at every point of a run ----

  ghost predicate NamesOk(m: Matches, names1: set<Text>, names2: set<Text>) {
    |m.lists| == 3 && m.NamesFrom(names1, names2)
  }

  ghost predicate StageOk<R(!new)>(f: Stage<R>, names1: set<Text>, names2: set<Text>) {
    forall m, r, e :: NamesOk(m, names1, names2) ==> NamesOk(f(m, r, e).0, names1, names2)
  }

  ghost predicate LoopStageOk<R(!new)>(f: LoopStage<R>, names1: set<Text>, names2: set<Text>) {
    forall m, r, e, k: nat :: NamesOk(m, names1, names2) ==> NamesOk(f(m, r, e, k).0, names1, names2)
  }

  /** The stages add items with names from the two exports only. */
  ghost predicate StagesOk<R(!new), F>(st: Stages<R, F>, names1: set<Text>, names2: set<Text>) {
    && StageOk(st.equalMatches, names1, names2) && StageOk(st.dirty, names1, names2) &&
      StageOk(st.sameName, names1, names2)
    && StageOk(st.remaining, names1, names2) && StageOk(st.best, names1, names2) && StageOk(st.partial, names1, names2)
    && StageOk(st.small, names1, names2) && StageOk(st.finalPass, names1, names2)
    && LoopStageOk(st.diffing, names1, names2) && LoopStageOk(st.related, names1, names2)
    && LoopStageOk(st.relatedUnit, names1, names2) && LoopStageOk(st.affine, names1, names2)
  }

  /** The parts of the session that follow from the cursor. */
  ghost predicate SessionFits<R, F>(p: Point<R, F>) {
    var c, s := p.cursor, p.session;
    && s.prepared == (if c.done >= DIRTY_HEURISTICS then Some(s.sameProcessor) else None)
    && s.iteration == (if InLoop(c.done) then Some(c.iteration) else None)
    && (c.done < FINAL_PASS ==> s.choosers == None)
    && (c.done < FIND_UNMATCHED ==> s.unmatched == None)
  }

  /** Only the steps the configuration and the branch allow. */
  ghost predicate CursorFits(cfg: Config, c: Cursor) {
    && c.done != NO_STEP
    && (c.skipOthers ==> c.done in {DIRTY_HEURISTICS, SAME_NAME, REMAINING_FUNCTIONS, FINAL_PASS, FIND_UNMATCHED})
    && (!c.skipOthers ==> c.done != REMAINING_FUNCTIONS)
    && (cfg.ignoreAllNames ==> c.done != SAME_NAME)
    && (!cfg.slowHeuristics ==> c.done != RELATED_MATCHES)
    && (!InLoop(c.done) ==> c.iteration == 0)
  }

  /** The outcome of some cleanup. */
  ghost predicate Settled(m: Matches) {
    exists x: Matches :: m == x.CleanedUp()
  }

  lemma {:induction false} SettledStays(m: Matches)
    requires Settled(m)
    ensures m.CleanedUp() == m
  {
    var x: Matches :| m == x.CleanedUp();
    CleanupIdempotent(x);
  }

  /** In the loop the old total counts the iterations, and a cleanup has just run at its two ends. */
  ghost predicate LoopFits<R, F>(p: Point<R, F>, bound: nat) {
    InLoop(p.cursor.done) ==>
      && p.cursor.iteration <= p.cursor.oldTotal <= bound
      && (p.cursor.done == LOOP_CLEANUP_BOTTOM ==> Settled(p.session.matches))
  }

  ghost predicate Fits<R, F>(cfg: Config, p: Point<R, F>, names1: set<Text>, names2: set<Text>) {
    && NamesOk(p.session.matches, names1, names2)
    && SessionFits(p) && CursorFits(cfg, p.cursor) && LoopFits(p, |names1| * |names2|)
  }

  lemma {:induction false} FirstFits<R(!new), F>(cfg: Config, st: Stages<R, F>, s: Session<R, F>, names1: set<Text>,
      names2: set<Text>)
    requires StagesOk(st, names1, names2) && NamesOk(s.matches, names1, names2)
    requires s.prepared == None && s.choosers == None && s.unmatched == None
    ensures Fits(cfg, FirstPoint(st, s), names1, names2)
  {
  }

  lemma {:induction false} StageKeepsNames<R(!new), F>(f: Stage<R>, s: Session<R, F>, names1: set<Text>,
      names2: set<Text>)
    requires StageOk(f, names1, names2) && NamesOk(s.matches, names1, names2)
    ensures NamesOk(RunStage(f, s).matches, names1, names2)
  {
  }

  lemma {:induction false} LoopStageKeepsNames<R(!new), F>(f: LoopStage<R>, s: Session<R, F>, k: nat,
      names1: set<Text>, names2: set<Text>)
    requires LoopStageOk(f, names1, names2) && NamesOk(s.matches, names1, names2)
    ensures NamesOk(RunLoopStage(f, s, k).matches, names1, names2)
  {
  }

  lemma {:induction false} EnterKeepsNames<R(!new), F>(cfg: Config, st: Stages<R, F>, p: Point<R, F>, step: Step,
      names1: set<Text>, names2: set<Text>)
    requires StagesOk(st, names1, names2) && NamesOk(p.session.matches, names1, names2)
    ensures NamesOk(Enter(cfg, st, p, step).session.matches, names1, names2)
  {
    var s, k := p.session, p.cursor.iteration;
    if step == DIRTY_HEURISTICS {
      StageKeepsNames(st.dirty, Prepare(s.(sameProcessor := st.sameProcessor(s.matches, s.rest))), names1, names2);
    } else if step == SAME_NAME {
      StageKeepsNames(st.sameName, s, names1, names2);
    } else if step == REMAINING_FUNCTIONS {
      StageKeepsNames(st.remaining, s, names1, names2);
    } else if step == BEST_CATEGORY {
      StageKeepsNames(st.best, s, names1, names2);
    } else if step == PARTIAL_CATEGORY {
      StageKeepsNames(st.partial, s, names1, names2);
    } else if step == SMALL_DIFFERENCES {
      StageKeepsNames(st.small, s, names1, names2);
    } else if step == LOOP_CLEANUP_TOP || step == LOOP_CLEANUP_BOTTOM {
      TotalBounded(s.matches, names1, names2);
    } else if step == MATCHES_DIFFING {
      LoopStageKeepsNames(st.diffing, s, k, names1, names2);
    } else if step == RELATED_MATCHES {
      LoopStageKeepsNames(st.related, s, k, names1, names2);
    } else if step == RELATED_COMPILATION_UNIT {
      LoopStageKeepsNames(st.relatedUnit, s, k, names1, names2);
    } else if step == LOCALLY_AFFINE {
      LoopStageKeepsNames(st.affine, s, k, names1, names2);
    } else if step == FINAL_PASS {
      StageKeepsNames(st.finalPass, Leave(p).session, names1, names2);
    }
  }

  lemma {:induction false} NextKeepsNames<R(!new), F>(cfg: Config, st: Stages<R, F>, p: Point<R, F>, names1: set<Text>,
      names2: set<Text>)
    requires StagesOk(st, names1, names2) && NamesOk(p.session.matches, names1, names2)
    ensures NamesOk(Next(cfg, st, p).session.matches, names1, names2)
  {
    EnterKeepsNames(cfg, st, p, NextStep(cfg, p), names1, names2);
  }

  /** The step that may follow, as far as its place in the order goes. */
  predicate Follows(a: Step, b: Step) {
    && (b == DIRTY_HEURISTICS ==> a == EQUAL_MATCHES)
    && (InLoop(b) && b != LOOP_CLEANUP_TOP ==> InLoop(a) && a != LOOP_CLEANUP_BOTTOM)
    && (b == LOOP_CLEANUP_TOP ==> a in {SMALL_DIFFERENCES, LOOP_CLEANUP_BOTTOM})
    && (b == FIND_UNMATCHED ==> a in {FINAL_PASS, FIND_UNMATCHED})
    && (b in {SAME_NAME, REMAINING_FUNCTIONS, BEST_CATEGORY, PARTIAL_CATEGORY, SMALL_DIFFERENCES} ==>
      a in {DIRTY_HEURISTICS, SAME_NAME, BEST_CATEGORY, PARTIAL_CATEGORY})
    && (b == FINAL_PASS ==> a in {REMAINING_FUNCTIONS, LOOP_CLEANUP_BOTTOM})
    && (b != NO_STEP && (b == EQUAL_MATCHES ==> a == NO_STEP))
  }

  lemma {:induction false} NextFollows<R, F>(cfg: Config, p: Point<R, F>)
    requires |p.session.matches.lists| == 3
    ensures Follows(p.cursor.done, NextStep(cfg, p))
  {
  }

  lemma {:induction false} EnterKeepsSession<R, F>(cfg: Config, st: Stages<R, F>, p: Point<R, F>, step: Step)
    requires |p.session.matches.lists| == 3 && SessionFits(p) && Follows(p.cursor.done, step) &&
      p.cursor.done != FIND_UNMATCHED
    requires step != EQUAL_MATCHES && p.cursor.done != NO_STEP
    ensures SessionFits(Enter(cfg, st, p, step))
  {
  }

  lemma {:induction false} NextKeepsSession<R, F>(cfg: Config, st: Stages<R, F>, p: Point<R, F>)
    requires |p.session.matches.lists| == 3 && SessionFits(p) && CursorFits(cfg, p.cursor)
    ensures SessionFits(Next(cfg, st, p))
  {
    NextFollows(cfg, p);
    if p.cursor.done != FIND_UNMATCHED {
      EnterKeepsSession(cfg, st, p, NextStep(cfg, p));
    }
  }

  lemma {:induction false} NextKeepsCursor<R, F>(cfg: Config, st: Stages<R, F>, p: Point<R, F>)
    requires |p.session.matches.lists| == 3 && CursorFits(cfg, p.cursor)
    ensures CursorFits(cfg, Next(cfg, st, p).cursor)
  {
  }

  lemma {:induction false} TopOfSettled<R, F>(p: Point<R, F>)
    requires |p.session.matches.lists| == 3 && Settled(p.session.matches)
    ensures TopStep(p).session.matches == p.session.matches
    ensures TopStep(p).cursor.oldTotal == p.session.matches.TotalMatched()
  {
    SettledStays(p.session.matches);
  }

  lemma {:induction false} TopComesNext<R, F>(cfg: Config, p: Point<R, F>)
    requires |p.session.matches.lists| == 3 && p.cursor.done == LOOP_CLEANUP_BOTTOM
    requires p.session.matches.TotalMatched() > p.cursor.oldTotal
    ensures NextStep(cfg, p) == LOOP_CLEANUP_TOP
  {
  }

  lemma {:induction false} NextEnters<R, F>(cfg: Config, st: Stages<R, F>, p: Point<R, F>, step: Step)
    requires |p.session.matches.lists| == 3 && p.cursor.done != FIND_UNMATCHED && NextStep(cfg, p) == step
    ensures Next(cfg, st, p) == Enter(cfg, st, p, step)
  {
  }

  lemma {:induction false} EnterTop<R, F>(cfg: Config, st: Stages<R, F>, p: Point<R, F>)
    requires |p.session.matches.lists| == 3
    ensures Enter(cfg, st, p, LOOP_CLEANUP_TOP) == TopStep(p)
  {
  }

  /** A new iteration starts from the total the previous one ended with: its first cleanup changes nothing. */
  lemma {:induction false} IterationStartsFromTotal<R, F>(cfg: Config, st: Stages<R, F>, p: Point<R, F>, bound: nat)
    requires |p.session.matches.lists| == 3 && p.cursor.done == LOOP_CLEANUP_BOTTOM && LoopFits(p, bound)
    requires p.session.matches.TotalMatched() > p.cursor.oldTotal
    ensures var q := Next(cfg, st, p);
      && q.cursor.done == LOOP_CLEANUP_TOP && q.cursor.iteration == p.cursor.iteration + 1
      && q.session.matches == p.session.matches && q.cursor.oldTotal == p.session.matches.TotalMatched()
  {
    TopComesNext(cfg, p);
    NextEnters(cfg, st, p, LOOP_CLEANUP_TOP);
    EnterTop(cfg, st, p);
    TopOfSettled(p);
  }

  lemma {:induction false} TopKeepsLoop<R, F>(p: Point<R, F>, names1: set<Text>, names2: set<Text>)
    requires NamesOk(p.session.matches, names1, names2) && LoopFits(p, |names1| * |names2|)
    requires p.cursor.done == SMALL_DIFFERENCES ||
      (p.cursor.done == LOOP_CLEANUP_BOTTOM && p.session.matches.TotalMatched() > p.cursor.oldTotal)
    ensures LoopFits(TopStep(p), |names1| * |names2|)
  {
    TotalBounded(p.session.matches, names1, names2);
    if p.cursor.done == LOOP_CLEANUP_BOTTOM {
      SettledStays(p.session.matches);
    }
  }

  lemma {:induction false} EnterKeepsLoop<R, F>(cfg: Config, st: Stages<R, F>, p: Point<R, F>, step: Step, bound: nat)
    requires |p.session.matches.lists| == 3 && LoopFits(p, bound) && Follows(p.cursor.done, step) &&
      step != LOOP_CLEANUP_TOP
    requires step != EQUAL_MATCHES
    ensures LoopFits(Enter(cfg, st, p, step), bound)
  {
  }

  lemma {:induction false} NextKeepsLoop<R, F>(cfg: Config, st: Stages<R, F>, p: Point<R, F>, names1: set<Text>,
      names2: set<Text>)
    requires NamesOk(p.session.matches, names1, names2) && CursorFits(cfg, p.cursor) && LoopFits(p, |names1| * |names2|)
    ensures LoopFits(Next(cfg, st, p), |names1| * |names2|)
  {
    NextFollows(cfg, p);
    if p.cursor.done != FIND_UNMATCHED {
      if NextStep(cfg, p) == LOOP_CLEANUP_TOP {
        TopKeepsLoop(p, names1, names2);
      } else {
        EnterKeepsLoop(cfg, st, p, NextStep(cfg, p), |names1| * |names2|);
      }
    }
  }

  lemma {:induction false} NextFits<R(!new), F>(cfg: Config, st: Stages<R, F>, p: Point<R, F>, names1: set<Text>,
      names2: set<Text>)
    requires StagesOk(st, names1, names2) && Fits(cfg, p, names1, names2)
    ensures Fits(cfg, Next(cfg, st, p), names1, names2)
  {
    NextKeepsNames(cfg, st, p, names1, names2);
    NextKeepsSession(cfg, st, p);
    NextKeepsCursor(cfg, st, p);
    NextKeepsLoop(cfg, st, p, names1, names2);
  }

  lemma {:induction false} RunFits<R(!new), F>(cfg: Config, st: Stages<R, F>, p: Point<R, F>, n: nat,
      names1: set<Text>, names2: set<Text>)
    requires StagesOk(st, names1, names2) && Fits(cfg, p, names1, names2)
    ensures Fits(cfg, Iterate(cfg, st, p, n), names1, names2)
  {
    if n > 0 {
      RunFits(cfg, st, p, n - 1, names1, names2);
      NextFits(cfg, st, Iterate(cfg, st, p, n - 1), names1, names2);
    }
  }

  /** A cursor a run offers is refused at load only for an iteration beyond the accepted range. */
  lemma {:induction false} SavedIsAccepted<R(!new), F>(cfg: Config, st: Stages<R, F>, p: Point<R, F>, n: nat,
      names1: set<Text>, names2: set<Text>)
    requires StagesOk(st, names1, names2) && Fits(cfg, p, names1, names2)
    ensures var c := Iterate(cfg, st, p, n).cursor;
      && (c.Accepted() <==> c.iteration <= MAX_ITERATION)
      && c.iteration <= |names1| * |names2|
  {
    RunFits(cfg, st, p, n, names1, names2);
    var c := Iterate(cfg, st, p, n).cursor;
    assert CursorFits(cfg, c);
    MulNotNegative(|names1|, |names2|);
  }

  lemma {:induction false} MulNotNegative(a: nat, b: nat)
    ensures a * b >= 0
  {
  }

  // ---- Stopping and resuming ----

  /** Where one stands after any number of rounds: each round resumes from the last offered checkpoint and gets
      `rounds[i]` steps further before it is stopped. */
  ghost function AfterRounds<T>(f: T -> T, p: T, rounds: seq<nat>): T {
    if rounds == [] then p else Repeat(f, AfterRounds(f, p, rounds[..|rounds| - 1]), rounds[|rounds| - 1])
  }

  lemma {:induction false} RoundsAreSteps<T>(f: T -> T, p: T, rounds: seq<nat>) returns (n: nat)
    ensures AfterRounds(f, p, rounds) == Repeat(f, p, n)
  {
    if rounds == [] {
      n := 0;
    } else {
      var m := RoundsAreSteps(f, p, rounds[..|rounds| - 1]);
      RepeatJoins(f, p, m, rounds[|rounds| - 1]);
      n := m + rounds[|rounds| - 1];
    }
  }

  lemma {:induction false} RoundsReachTheEnd<T>(f: T -> T, p: T, rounds: seq<nat>, last: nat, whole: nat)
    requires var q := Repeat(f, AfterRounds(f, p, rounds), last); f(q) == q
    requires f(Repeat(f, p, whole)) == Repeat(f, p, whole)
    ensures Repeat(f, AfterRounds(f, p, rounds), last) == Repeat(f, p, whole)
  {
    var n := RoundsAreSteps(f, p, rounds);
    RepeatJoins(f, p, n, last);
    OneFixedPoint(f, p, n + last, whole);
  }

  /** Resuming equals no interruption, for any number of stop and resume rounds. */
  lemma {:induction false} ResumeEqualsNoInterruption<R, F>(cfg: Config, st: Stages<R, F>, p: Point<R, F>,
      rounds: seq<nat>, last: nat, whole: nat)
    requires Iterate(cfg, st, AfterRounds(x => Next(cfg, st, x), p, rounds), last).cursor.done == FIND_UNMATCHED
    requires Iterate(cfg, st, p, whole).cursor.done == FIND_UNMATCHED
    ensures Iterate(cfg, st, AfterRounds(x => Next(cfg, st, x), p, rounds), last) == Iterate(cfg, st, p, whole)
  {
    RoundsReachTheEnd(x => Next(cfg, st, x), p, rounds, last, whole);
  }

  // ---- Checkpoints ----

  /** What is written: everything but the prepared engine, and results only once their stage has run. */
  datatype Checkpoint<R, F> = Checkpoint(
    cursor: Cursor,
    matches: Matches,
    rest: R,
    sameProcessor: bool,
    iteration: Option<nat>,
    choosers: Option<F>,
    unmatched: Option<F>)

  function Capture<R, F>(p: Point<R, F>): Checkpoint<R, F> {
    var s := p.session;
    Checkpoint(p.cursor, s.matches, s.rest, s.sameProcessor, s.iteration,
      if p.cursor.done >= FINAL_PASS then s.choosers else None,
      if p.cursor.done >= FIND_UNMATCHED then s.unmatched else None)
  }

  function Restore<R, F>(c: Checkpoint<R, F>): Session<R, F> {
    Session(c.matches, c.rest, c.sameProcessor, c.iteration, None, c.choosers, c.unmatched)
  }

  /** A checkpoint loses the prepared engine only, and preparing it again brings the session back. */
  lemma {:induction false} RestoreUndoesCapture<R, F>(p: Point<R, F>)
    requires SessionFits(p)
    ensures Capture(p).cursor == p.cursor
    ensures Restore(Capture(p)) == p.session.(prepared := None)
    ensures p.cursor.done >= DIRTY_HEURISTICS ==> Prepare(Restore(Capture(p))) == p.session
    ensures p.cursor.done < DIRTY_HEURISTICS ==> Restore(Capture(p)) == p.session
  {
  }

  // ---- The driver ----

  ghost predicate Linked<R, F>(cfg: Config, st: Stages<R, F>, t: seq<Point<R, F>>, i: nat) {
    i + 1 < |t| && t[i + 1] == Next(cfg, st, t[i])
  }

  /** The points a run passes, each the next of the one before. */
  ghost predicate Trail<R, F>(cfg: Config, st: Stages<R, F>, t: seq<Point<R, F>>) {
    t != [] && forall i: nat {:trigger Linked(cfg, st, t, i)} :: i + 1 < |t| ==> Linked(cfg, st, t, i)
  }

  lemma {:induction false} TrailGrows<R, F>(cfg: Config, st: Stages<R, F>, t: seq<Point<R, F>>, p: Point<R, F>)
    requires Trail(cfg, st, t) && p == Next(cfg, st, t[|t| - 1])
    ensures Trail(cfg, st, t + [p])
  {
    forall i: nat | i + 1 < |t + [p]| ensures Linked(cfg, st, t + [p], i) {
      assert i + 1 < |t| ==> Linked(cfg, st, t, i);
    }
  }

  lemma {:induction false} TrailIterates<R, F>(cfg: Config, st: Stages<R, F>, t: seq<Point<R, F>>, i: nat)
    requires Trail(cfg, st, t) && i < |t|
    ensures t[i] == Iterate(cfg, st, t[0], i)
  {
    if i > 0 {
      TrailIterates(cfg, st, t, i - 1);
      assert Linked(cfg, st, t, i - 1);
    }
  }

  ghost function Captures<R, F>(t: seq<Point<R, F>>): (c: seq<Checkpoint<R, F>>)
    ensures |c| == |t| && forall i :: 0 <= i < |t| ==> c[i] == Capture(t[i])
  {
    seq(|t|, i requires 0 <= i < |t| => Capture(t[i]))
  }
}
