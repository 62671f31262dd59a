/**
 * What a finished run has done: the stages in order, each on what the one before it left, with the processor flag and
 * the iteration number it is due. Nothing here speaks of single steps or of the cursor.
 */
module PipelineOrder {
  import opened Options
  import opened Matching
  import opened PipelineSteps

  /** What the stages work on. */
  datatype Work<R> = Work(matches: Matches, rest: R)

  function Do<R>(f: Stage<R>, w: Work<R>, flag: Option<bool>): Work<R> {
    var r := f(w.matches, w.rest, flag);
    Work(r.0, r.1)
  }

  function DoInLoop<R>(f: LoopStage<R>, w: Work<R>, flag: Option<bool>, k: nat): Work<R> {
    var r := f(w.matches, w.rest, flag, k);
    Work(r.0, r.1)
  }

  function Clean<R>(clean: Matches -> Matches, w: Work<R>): Work<R> {
    Work(clean(w.matches), w.rest)
  }

  ghost predicate Cleans(clean: Matches -> Matches, m: Matches) {
    clean(m) == m.CleanedUp()
  }

  ghost predicate IsCleanup(clean: Matches -> Matches) {
    forall m {:trigger Cleans(clean, m)} :: Cleans(clean, m)
  }

  /** The cleanup of the matches, as a function. */
  ghost function Cleanups(): (clean: Matches -> Matches)
    ensures IsCleanup(clean)
  {
    (m: Matches) => m.CleanedUp()
  }

  /** Best and partial items. */
  function Found(m: Matches): nat {
    if |m.lists| == 3 then |m.lists[0]| + |m.lists[1]| else 0
  }

  /** The first cleanup of iteration k, find_matches_diffing and, with slow heuristics, find_related_matches. */
  function EarlyPart<R, F>(cfg: Config, st: Stages<R, F>, clean: Matches -> Matches, w: Work<R>, flag: Option<bool>,
      k: nat): Work<R> {
    var diffed := DoInLoop(st.diffing, Clean(clean, w), flag, k);
    if cfg.slowHeuristics then DoInLoop(st.related, diffed, flag, k) else diffed
  }

  /** find_related_compilation_unit, find_locally_affine_functions and the second cleanup. */
  function LatePart<R, F>(st: Stages<R, F>, clean: Matches -> Matches, w: Work<R>, flag: Option<bool>,
      k: nat): Work<R> {
    Clean(clean, DoInLoop(st.affine, DoInLoop(st.relatedUnit, w, flag, k), flag, k))
  }

  /** Iteration k of the convergence loop. */
  function Iteration<R, F>(cfg: Config, st: Stages<R, F>, clean: Matches -> Matches, w: Work<R>, flag: Option<bool>,
      k: nat): Work<R> {
    LatePart(st, clean, EarlyPart(cfg, st, clean, w, flag, k), flag, k)
  }

  ghost predicate Iterated<R, F>(cfg: Config, st: Stages<R, F>, clean: Matches -> Matches, works: seq<Work<R>>,
      flag: Option<bool>, k: nat)
  {
    k + 1 < |works| && works[k + 1] == Iteration(cfg, st, clean, works[k], flag, k)
  }

  /** Iteration k leaves more matches than its first cleanup. */
  ghost predicate Grew<R>(clean: Matches -> Matches, works: seq<Work<R>>, k: nat) {
    k + 1 < |works| && Found(works[k + 1].matches) > Found(Clean(clean, works[k]).matches)
  }

  ghost predicate AllIterated<R, F>(cfg: Config, st: Stages<R, F>, clean: Matches -> Matches, works: seq<Work<R>>,
      flag: Option<bool>)
  {
    forall k: nat :: k + 1 < |works| ==> Iterated(cfg, st, clean, works, flag, k)
  }

  /** The loop: one iteration after the other, up to the first one that does not grow. */
  ghost predicate Converges<R, F>(cfg: Config, st: Stages<R, F>, clean: Matches -> Matches, works: seq<Work<R>>,
      flag: Option<bool>)
  {
    && |works| > 1 && AllIterated(cfg, st, clean, works, flag)
    && !Grew(clean, works, |works| - 2) && forall k: nat :: k + 2 < |works| ==> Grew(clean, works, k)
  }

  /** The work after find_same_name. */
  function Named<R, F>(cfg: Config, st: Stages<R, F>, equal: Work<R>, flag: Option<bool>): Work<R> {
    var dirty := if cfg.experimental then Do(st.dirty, equal, flag) else equal;
    if cfg.ignoreAllNames then dirty else Do(st.sameName, dirty, flag)
  }

  /** The best category, the partial category, the small differences. */
  function Categories<R, F>(st: Stages<R, F>, w: Work<R>, flag: Option<bool>): Work<R> {
    Do(st.small, Do(st.partial, Do(st.best, w, flag), flag), flag)
  }

  /** The final pass, the result lists, the functions that were not matched. */
  function Ending<R, F>(st: Stages<R, F>, w: Work<R>, same: bool): Session<R, F> {
    var final := Do(st.finalPass, w, Some(same));
    var choosers := Some(st.choosers(final.matches, final.rest));
    Session(final.matches, final.rest, same, None, Some(same), choosers,
      Some(st.unmatched(final.matches, final.rest, choosers)))
  }

  /** What a run that started with session s has done in the end; `works` are the works between the iterations. */
  ghost predicate Composed<R, F>(cfg: Config, st: Stages<R, F>, clean: Matches -> Matches, s: Session<R, F>,
      works: seq<Work<R>>, end: Session<R, F>)
  {
    var equal := Do(st.equalMatches, Work(s.matches, s.rest), None);
    var same := st.sameProcessor(equal.matches, equal.rest);
    var flag := Some(same);
    var named := Named(cfg, st, equal, flag);
    if cfg.experimental && st.dirtyFired(equal.matches, equal.rest, flag) then
      end == Ending(st, Do(st.remaining, named, flag), same)
    else
      && Converges(cfg, st, clean, works, flag) && works[0] == Categories(st, named, flag)
      && end == Ending(st, works[|works| - 1], same)
  }

  // ---- Each step does its part ----

  /** The run stands behind a step, with this work done. */
  ghost function Stand<R, F>(c: Cursor, w: Work<R>, same: bool, iteration: Option<nat>): Point<R, F> {
    Point(c, Session(w.matches, w.rest, same, iteration, Some(same), None, None))
  }

  lemma {:induction false} DirtyNext<R, F>(cfg: Config, st: Stages<R, F>, s: Session<R, F>, equal: Work<R>, same: bool,
      skip: bool)
    requires s.prepared == None && s.choosers == None && s.unmatched == None
    requires equal == Do(st.equalMatches, Work(s.matches, s.rest), None) && |equal.matches.lists| == 3
    requires same == st.sameProcessor(equal.matches, equal.rest)
    requires skip == (cfg.experimental && st.dirtyFired(equal.matches, equal.rest, Some(same)))
    ensures Next(cfg, st, FirstPoint(st, s)) == Stand(Cursor(DIRTY_HEURISTICS, 0, skip, 0),
      if cfg.experimental then Do(st.dirty, equal, Some(same)) else equal, same, None)
  {
  }

  lemma {:induction false} NameNext<R, F>(cfg: Config, st: Stages<R, F>, w: Work<R>, same: bool, skip: bool)
    requires |w.matches.lists| == 3 && !cfg.ignoreAllNames
    ensures Next(cfg, st, Stand(Cursor(DIRTY_HEURISTICS, 0, skip, 0), w, same, None)) ==
      Stand(Cursor(SAME_NAME, 0, skip, 0), Do(st.sameName, w, Some(same)), same, None)
  {
  }

  /** The last step before the branch. */
  function NamesDone(cfg: Config): Step {
    if cfg.ignoreAllNames then DIRTY_HEURISTICS else SAME_NAME
  }

  lemma {:induction false} RemainingNext<R, F>(cfg: Config, st: Stages<R, F>, w: Work<R>, same: bool)
    requires |w.matches.lists| == 3
    ensures Next(cfg, st, Stand(Cursor(NamesDone(cfg), 0, true, 0), w, same, None)) ==
      Stand(Cursor(REMAINING_FUNCTIONS, 0, true, 0), Do(st.remaining, w, Some(same)), same, None)
  {
  }

  lemma {:induction false} BestNext<R, F>(cfg: Config, st: Stages<R, F>, w: Work<R>, same: bool)
    requires |w.matches.lists| == 3
    ensures Next(cfg, st, Stand(Cursor(NamesDone(cfg), 0, false, 0), w, same, None)) ==
      Stand(Cursor(BEST_CATEGORY, 0, false, 0), Do(st.best, w, Some(same)), same, None)
  {
  }

  lemma {:induction false} PartialNext<R, F>(cfg: Config, st: Stages<R, F>, w: Work<R>, same: bool)
    requires |w.matches.lists| == 3
    ensures Next(cfg, st, Stand(Cursor(BEST_CATEGORY, 0, false, 0), w, same, None)) ==
      Stand(Cursor(PARTIAL_CATEGORY, 0, false, 0), Do(st.partial, w, Some(same)), same, None)
  {
  }

  lemma {:induction false} SmallNext<R, F>(cfg: Config, st: Stages<R, F>, w: Work<R>, same: bool)
    requires |w.matches.lists| == 3
    ensures Next(cfg, st, Stand(Cursor(PARTIAL_CATEGORY, 0, false, 0), w, same, None)) ==
      Stand(Cursor(SMALL_DIFFERENCES, 0, false, 0), Do(st.small, w, Some(same)), same, None)
  {
  }

  /** The run stands before iteration k: behind the small differences, or behind the iteration before, which grew. */
  ghost predicate BeforeIteration<R, F>(p: Point<R, F>, w: Work<R>, same: bool, k: nat) {
    if k == 0 then p == Stand(Cursor(SMALL_DIFFERENCES, 0, false, 0), w, same, None)
    else
      && p == Stand(Cursor(LOOP_CLEANUP_BOTTOM, k - 1, false, p.cursor.oldTotal), w, same, Some(k - 1))
      && Found(w.matches) > p.cursor.oldTotal
  }

  lemma {:induction false} TopNext<R, F>(cfg: Config, st: Stages<R, F>, p: Point<R, F>, w: Work<R>, same: bool, k: nat,
      cleaned: Matches)
    requires |w.matches.lists| == 3 && BeforeIteration(p, w, same, k) && cleaned == w.matches.CleanedUp()
    ensures Next(cfg, st, p) ==
      Stand(Cursor(LOOP_CLEANUP_TOP, k, false, Found(cleaned)), Work(cleaned, w.rest), same, Some(k))
  {
    if k > 0 {
      TopComesNext(cfg, p);
    }
    NextEnters(cfg, st, p, LOOP_CLEANUP_TOP);
    EnterTop(cfg, st, p);
    TopIs(p, cleaned, k);
  }

  lemma {:induction false} TopIs<R, F>(p: Point<R, F>, m: Matches, k: nat)
    requires |p.session.matches.lists| == 3 && m == p.session.matches.CleanedUp() && k == NextIteration(p)
    ensures TopStep(p) == Point(Cursor(LOOP_CLEANUP_TOP, k, p.cursor.skipOthers, Found(m)),
      p.session.(matches := m, iteration := Some(k)))
  {
  }

  lemma {:induction false} DiffingNext<R, F>(cfg: Config, st: Stages<R, F>, w: Work<R>, same: bool, k: nat, old': nat)
    requires |w.matches.lists| == 3
    ensures Next(cfg, st, Stand(Cursor(LOOP_CLEANUP_TOP, k, false, old'), w, same, Some(k))) ==
      Stand(Cursor(MATCHES_DIFFING, k, false, old'), DoInLoop(st.diffing, w, Some(same), k), same, Some(k))
  {
  }

  lemma {:induction false} RelatedNext<R, F>(cfg: Config, st: Stages<R, F>, w: Work<R>, same: bool, k: nat, old': nat)
    requires |w.matches.lists| == 3 && cfg.slowHeuristics
    ensures Next(cfg, st, Stand(Cursor(MATCHES_DIFFING, k, false, old'), w, same, Some(k))) ==
      Stand(Cursor(RELATED_MATCHES, k, false, old'), DoInLoop(st.related, w, Some(same), k), same, Some(k))
  {
  }

  lemma {:induction false} UnitNext<R, F>(cfg: Config, st: Stages<R, F>, w: Work<R>, same: bool, k: nat, old': nat)
    requires |w.matches.lists| == 3
    ensures
      var d := if cfg.slowHeuristics then RELATED_MATCHES else MATCHES_DIFFING;
      Next(cfg, st, Stand(Cursor(d, k, false, old'), w, same, Some(k))) ==
      Stand(Cursor(RELATED_COMPILATION_UNIT, k, false, old'), DoInLoop(st.relatedUnit, w, Some(same), k), same, Some(k))
  {
  }

  lemma {:induction false} AffineNext<R, F>(cfg: Config, st: Stages<R, F>, w: Work<R>, same: bool, k: nat, old': nat)
    requires |w.matches.lists| == 3
    ensures Next(cfg, st, Stand(Cursor(RELATED_COMPILATION_UNIT, k, false, old'), w, same, Some(k))) ==
      Stand(Cursor(LOCALLY_AFFINE, k, false, old'), DoInLoop(st.affine, w, Some(same), k), same, Some(k))
  {
  }

  lemma {:induction false} BottomNext<R, F>(cfg: Config, st: Stages<R, F>, w: Work<R>, same: bool, k: nat, old': nat,
      cleaned: Matches)
    requires |w.matches.lists| == 3 && cleaned == w.matches.CleanedUp()
    ensures Next(cfg, st, Stand(Cursor(LOCALLY_AFFINE, k, false, old'), w, same, Some(k))) ==
      Stand(Cursor(LOOP_CLEANUP_BOTTOM, k, false, old'), Work(cleaned, w.rest), same, Some(k))
  {
    var p := Stand(Cursor(LOCALLY_AFFINE, k, false, old'), w, same, Some(k));
    NextEnters(cfg, st, p, LOOP_CLEANUP_BOTTOM);
    EnterBottom(cfg, st, p);
  }

  lemma {:induction false} EnterBottom<R, F>(cfg: Config, st: Stages<R, F>, p: Point<R, F>)
    requires |p.session.matches.lists| == 3
    ensures Enter(cfg, st, p, LOOP_CLEANUP_BOTTOM) ==
      Point(p.cursor.(done := LOOP_CLEANUP_BOTTOM), p.session.(matches := p.session.matches.CleanedUp()))
  {
  }

  /** The run stands before the final pass. */
  ghost predicate BeforeEnding<R, F>(p: Point<R, F>, w: Work<R>, same: bool) {
    || p == Stand(Cursor(REMAINING_FUNCTIONS, 0, true, 0), w, same, None)
    || exists k: nat ::
      && p == Stand(Cursor(LOOP_CLEANUP_BOTTOM, k, false, p.cursor.oldTotal), w, same, Some(k))
      && Found(w.matches) <= p.cursor.oldTotal
  }

  /** The run stands behind the final pass. */
  ghost predicate BeforeUnmatched<R, F>(st: Stages<R, F>, q: Point<R, F>, w: Work<R>, same: bool) {
    var f := Do(st.finalPass, w, Some(same));
    && q.cursor.done == FINAL_PASS
    && q.session == Session(f.matches, f.rest, same, None, Some(same), Some(st.choosers(f.matches, f.rest)), None)
  }

  lemma {:induction false} FinalNext<R, F>(cfg: Config, st: Stages<R, F>, p: Point<R, F>, w: Work<R>, same: bool)
    requires BeforeEnding(p, w, same) && |w.matches.lists| == 3
    ensures p.cursor.done != FIND_UNMATCHED && BeforeUnmatched(st, Next(cfg, st, p), w, same)
  {
  }

  lemma {:induction false} UnmatchedNext<R, F>(cfg: Config, st: Stages<R, F>, q: Point<R, F>, w: Work<R>, same: bool)
    requires BeforeUnmatched(st, q, w, same) && |q.session.matches.lists| == 3
    ensures Next(cfg, st, q).cursor.done == FIND_UNMATCHED && Next(cfg, st, q).session == Ending(st, w, same)
  {
  }

  // ---- A whole run ----

  /** The points of a finished run, each with three lists. */
  ghost predicate Finished<R, F>(cfg: Config, st: Stages<R, F>, t: seq<Point<R, F>>) {
    && Trail(cfg, st, t) && t[|t| - 1].cursor.done == FIND_UNMATCHED
    && forall i :: 0 <= i < |t| ==> |t[i].session.matches.lists| == 3
  }

  /** Behind a point that is not the last one stands the next one. */
  lemma {:induction false} Advance<R, F>(cfg: Config, st: Stages<R, F>, t: seq<Point<R, F>>, m: nat, q: Point<R, F>)
    requires Finished(cfg, st, t) && m < |t| && t[m].cursor.done != FIND_UNMATCHED && Next(cfg, st, t[m]) == q
    ensures m + 1 < |t| && t[m + 1] == q && |q.session.matches.lists| == 3
  {
    assert Linked(cfg, st, t, m);
  }

  /** Behind the end nothing changes. */
  lemma {:induction false} EndStays<R, F>(cfg: Config, st: Stages<R, F>, t: seq<Point<R, F>>, m: nat)
    requires Finished(cfg, st, t) && m < |t| && t[m].cursor.done == FIND_UNMATCHED
    ensures t[|t| - 1] == t[m]
    decreases |t| - m
  {
    if m + 1 < |t| {
      assert Linked(cfg, st, t, m);
      EndStays(cfg, st, t, m + 1);
    }
  }

  function RelatedDone(cfg: Config): Step {
    if cfg.slowHeuristics then RELATED_MATCHES else MATCHES_DIFFING
  }

  /** The run stands in the middle of iteration k. */
  ghost function Middle<R, F>(cfg: Config, w: Work<R>, same: bool, k: nat, total: nat): Point<R, F> {
    Stand(Cursor(RelatedDone(cfg), k, false, total), w, same, Some(k))
  }

  /** The run stands behind iteration k. */
  ghost function Bottom<R, F>(w: Work<R>, same: bool, k: nat, total: nat): Point<R, F> {
    Stand(Cursor(LOOP_CLEANUP_BOTTOM, k, false, total), w, same, Some(k))
  }

  lemma {:induction false} TopRuns<R, F>(cfg: Config, st: Stages<R, F>, clean: Matches -> Matches,
      t: seq<Point<R, F>>, m: nat, w: Work<R>, same: bool, k: nat, total: nat)
    requires Finished(cfg, st, t) && IsCleanup(clean) && m < |t| && BeforeIteration(t[m], w, same, k)
    requires |w.matches.lists| == 3 && total == Found(Clean(clean, w).matches)
    ensures m + 1 < |t| && |Clean(clean, w).matches.lists| == 3
    ensures t[m + 1] == Stand(Cursor(LOOP_CLEANUP_TOP, k, false, total), Clean(clean, w), same, Some(k))
  {
    assert Cleans(clean, w.matches);
    TopNext(cfg, st, t[m], w, same, k, clean(w.matches));
    Advance(cfg, st, t, m, Stand(Cursor(LOOP_CLEANUP_TOP, k, false, total), Clean(clean, w), same, Some(k)));
  }

  lemma {:induction false} EarlyRuns<R, F>(cfg: Config, st: Stages<R, F>, clean: Matches -> Matches,
      t: seq<Point<R, F>>, m: nat, w: Work<R>, same: bool, k: nat, total: nat) returns (n: nat, v: Work<R>)
    requires Finished(cfg, st, t) && IsCleanup(clean) && m < |t| && BeforeIteration(t[m], w, same, k)
    requires |w.matches.lists| == 3 && total == Found(Clean(clean, w).matches)
    ensures v == EarlyPart(cfg, st, clean, w, Some(same), k) && |v.matches.lists| == 3
    ensures m < n < |t| && t[n] == Middle(cfg, v, same, k, total)
  {
    TopRuns(cfg, st, clean, t, m, w, same, k, total);
    DiffingNext(cfg, st, Clean(clean, w), same, k, total);
    v := DoInLoop(st.diffing, Clean(clean, w), Some(same), k);
    Advance(cfg, st, t, m + 1, Stand(Cursor(MATCHES_DIFFING, k, false, total), v, same, Some(k)));
    n := m + 2;
    if cfg.slowHeuristics {
      RelatedNext(cfg, st, v, same, k, total);
      v := DoInLoop(st.related, v, Some(same), k);
      Advance(cfg, st, t, m + 2, Stand(Cursor(RELATED_MATCHES, k, false, total), v, same, Some(k)));
      n := m + 3;
    }
  }

  lemma {:induction false} LateRuns<R, F>(cfg: Config, st: Stages<R, F>, clean: Matches -> Matches,
      t: seq<Point<R, F>>, m: nat, v: Work<R>, same: bool, k: nat, total: nat) returns (next: Work<R>)
    requires Finished(cfg, st, t) && IsCleanup(clean) && m < |t|
    requires t[m] == Middle(cfg, v, same, k, total) && |v.matches.lists| == 3
    ensures next == LatePart(st, clean, v, Some(same), k) && |next.matches.lists| == 3
    ensures m + 3 < |t| && t[m + 3] == Bottom(next, same, k, total)
  {
    UnitNext(cfg, st, v, same, k, total);
    var x := DoInLoop(st.relatedUnit, v, Some(same), k);
    Advance(cfg, st, t, m, Stand(Cursor(RELATED_COMPILATION_UNIT, k, false, total), x, same, Some(k)));
    AffineNext(cfg, st, x, same, k, total);
    var y := DoInLoop(st.affine, x, Some(same), k);
    Advance(cfg, st, t, m + 1, Stand(Cursor(LOCALLY_AFFINE, k, false, total), y, same, Some(k)));
    assert Cleans(clean, y.matches);
    BottomNext(cfg, st, y, same, k, total, clean(y.matches));
    next := Clean(clean, y);
    Advance(cfg, st, t, m + 2, Bottom(next, same, k, total));
  }

  lemma {:induction false} IterationRuns<R, F>(cfg: Config, st: Stages<R, F>, clean: Matches -> Matches,
      t: seq<Point<R, F>>, m: nat, w: Work<R>, same: bool, k: nat, total: nat) returns (n: nat, next: Work<R>)
    requires Finished(cfg, st, t) && IsCleanup(clean) && m < |t| && BeforeIteration(t[m], w, same, k)
    requires |w.matches.lists| == 3 && total == Found(Clean(clean, w).matches)
    ensures next == Iteration(cfg, st, clean, w, Some(same), k) && |next.matches.lists| == 3
    ensures m < n < |t| && t[n] == Bottom(next, same, k, total)
  {
    var h, v := EarlyRuns(cfg, st, clean, t, m, w, same, k, total);
    next := LateRuns(cfg, st, clean, t, h, v, same, k, total);
    n := h + 3;
  }

  /** Behind iteration k the loop goes on or ends, as the total grew or not. */
  lemma {:induction false} GoesOnOrEnds<R, F>(w: Work<R>, same: bool, k: nat, total: nat, q: Point<R, F>)
    requires q == Bottom(w, same, k, total)
    ensures if Found(w.matches) > total then BeforeIteration(q, w, same, k + 1) else BeforeEnding(q, w, same)
  {
  }

  /** Iterations that grew all. */
  ghost predicate Growing<R, F>(cfg: Config, st: Stages<R, F>, clean: Matches -> Matches, works: seq<Work<R>>,
      flag: Option<bool>) {
    works != [] && AllIterated(cfg, st, clean, works, flag) &&
    forall k: nat :: k + 1 < |works| ==> Grew(clean, works, k)
  }

  lemma {:induction false} OneMore<R, F>(cfg: Config, st: Stages<R, F>, clean: Matches -> Matches,
      works: seq<Work<R>>, flag: Option<bool>, k: nat, next: Work<R>)
    requires Growing(cfg, st, clean, works, flag) && k + 1 == |works|
    requires next == Iteration(cfg, st, clean, works[k], flag, k)
    ensures if Found(next.matches) > Found(Clean(clean, works[k]).matches)
      then Growing(cfg, st, clean, works + [next], flag)
      else Converges(cfg, st, clean, works + [next], flag)
  {
    var all := works + [next];
    forall j: nat | j + 1 < |all| ensures Iterated(cfg, st, clean, all, flag, j) && (j < k ==> Grew(clean, all, j)) {
      if j < k {
        assert Iterated(cfg, st, clean, works, flag, j) && Grew(clean, works, j);
      }
    }
  }

  /** The loop of a finished run: iterations up to the first one that does not grow. */
  lemma {:induction false} LoopRuns<R, F>(cfg: Config, st: Stages<R, F>, clean: Matches -> Matches,
      t: seq<Point<R, F>>, m: nat, same: bool, before: seq<Work<R>>, k: nat) returns (works: seq<Work<R>>, l: nat)
    requires Finished(cfg, st, t) && IsCleanup(clean) && m < |t| && k + 1 == |before|
    requires Growing(cfg, st, clean, before, Some(same))
    requires BeforeIteration(t[m], before[k], same, k) && |before[k].matches.lists| == 3
    ensures Converges(cfg, st, clean, works, Some(same)) && works[0] == before[0]
    ensures |works[|works| - 1].matches.lists| == 3
    ensures l < |t| && BeforeEnding(t[l], works[|works| - 1], same)
    decreases |t| - m
  {
    var total := Found(Clean(clean, before[k]).matches);
    var h, next := IterationRuns(cfg, st, clean, t, m, before[k], same, k, total);
    OneMore(cfg, st, clean, before, Some(same), k, next);
    GoesOnOrEnds(next, same, k, total, t[h]);
    if Found(next.matches) > total {
      works, l := LoopRuns(cfg, st, clean, t, h, same, before + [next], k + 1);
    } else {
      works, l := before + [next], h;
    }
  }

  /** Behind the last stage of a finished run stands its ending. */
  lemma {:induction false} EndingRuns<R, F>(cfg: Config, st: Stages<R, F>, t: seq<Point<R, F>>, l: nat, w: Work<R>,
      same: bool)
    requires Finished(cfg, st, t) && l < |t| && BeforeEnding(t[l], w, same) && |w.matches.lists| == 3
    ensures t[|t| - 1].session == Ending(st, w, same)
  {
    FinalNext(cfg, st, t[l], w, same);
    var q := Next(cfg, st, t[l]);
    Advance(cfg, st, t, l, q);
    UnmatchedNext(cfg, st, q, w, same);
    Advance(cfg, st, t, l + 1, Next(cfg, st, q));
    EndStays(cfg, st, t, l + 2);
  }

  // ---- What a finished run is ----

  /** The run stands behind find_same_name, or where it would be. */
  ghost predicate BehindNames<R, F>(cfg: Config, p: Point<R, F>, w: Work<R>, same: bool, skip: bool) {
    p == Stand(Cursor(NamesDone(cfg), 0, skip, 0), w, same, None)
  }

  lemma {:induction false} NamesRun<R, F>(cfg: Config, st: Stages<R, F>, t: seq<Point<R, F>>, s: Session<R, F>,
      equal: Work<R>, same: bool, skip: bool) returns (l: nat)
    requires Finished(cfg, st, t) && t[0] == FirstPoint(st, s)
    requires s.prepared == None && s.choosers == None && s.unmatched == None
    requires equal == Do(st.equalMatches, Work(s.matches, s.rest), None)
    requires same == st.sameProcessor(equal.matches, equal.rest)
    requires skip == (cfg.experimental && st.dirtyFired(equal.matches, equal.rest, Some(same)))
    ensures l < |t| && |Named(cfg, st, equal, Some(same)).matches.lists| == 3
    ensures BehindNames(cfg, t[l], Named(cfg, st, equal, Some(same)), same, skip)
  {
    assert |t[0].session.matches.lists| == 3;
    DirtyNext(cfg, st, s, equal, same, skip);
    var dirty := if cfg.experimental then Do(st.dirty, equal, Some(same)) else equal;
    Advance(cfg, st, t, 0, Stand(Cursor(DIRTY_HEURISTICS, 0, skip, 0), dirty, same, None));
    l := 1;
    if !cfg.ignoreAllNames {
      NameNext(cfg, st, dirty, same, skip);
      Advance(cfg, st, t, 1, Stand(Cursor(SAME_NAME, 0, skip, 0), Do(st.sameName, dirty, Some(same)), same, None));
      l := 2;
    }
  }

  lemma {:induction false} CategoriesRun<R, F>(cfg: Config, st: Stages<R, F>, t: seq<Point<R, F>>, l: nat, w: Work<R>,
      same: bool) returns (v: Work<R>)
    requires Finished(cfg, st, t) && l < |t| && BehindNames(cfg, t[l], w, same, false) && |w.matches.lists| == 3
    ensures v == Categories(st, w, Some(same)) && |v.matches.lists| == 3
    ensures l + 3 < |t| && BeforeIteration(t[l + 3], v, same, 0)
  {
    BestNext(cfg, st, w, same);
    var best := Do(st.best, w, Some(same));
    Advance(cfg, st, t, l, Stand(Cursor(BEST_CATEGORY, 0, false, 0), best, same, None));
    PartialNext(cfg, st, best, same);
    var partial := Do(st.partial, best, Some(same));
    Advance(cfg, st, t, l + 1, Stand(Cursor(PARTIAL_CATEGORY, 0, false, 0), partial, same, None));
    SmallNext(cfg, st, partial, same);
    v := Do(st.small, partial, Some(same));
    Advance(cfg, st, t, l + 2, Stand(Cursor(SMALL_DIFFERENCES, 0, false, 0), v, same, None));
  }

  /** A finished run has done the stages in order, whatever single steps it took. */
  lemma {:induction false} FinishedIsComposed<R, F>(cfg: Config, st: Stages<R, F>, clean: Matches -> Matches,
      t: seq<Point<R, F>>, s: Session<R, F>) returns (works: seq<Work<R>>)
    requires Finished(cfg, st, t) && IsCleanup(clean) && t[0] == FirstPoint(st, s)
    requires s.prepared == None && s.choosers == None && s.unmatched == None
    ensures Composed(cfg, st, clean, s, works, t[|t| - 1].session)
  {
    var equal := Do(st.equalMatches, Work(s.matches, s.rest), None);
    var same := st.sameProcessor(equal.matches, equal.rest);
    var skip := cfg.experimental && st.dirtyFired(equal.matches, equal.rest, Some(same));
    var l := NamesRun(cfg, st, t, s, equal, same, skip);
    var named := Named(cfg, st, equal, Some(same));
    if skip {
      RemainingNext(cfg, st, named, same);
      var rest := Do(st.remaining, named, Some(same));
      Advance(cfg, st, t, l, Stand(Cursor(REMAINING_FUNCTIONS, 0, true, 0), rest, same, None));
      EndingRuns(cfg, st, t, l + 1, rest, same);
      works := [];
    } else {
      var w := CategoriesRun(cfg, st, t, l, named, same);
      var e;
      works, e := LoopRuns(cfg, st, clean, t, l + 3, same, [w], 0);
      EndingRuns(cfg, st, t, e, works[|works| - 1], same);
    }
  }
}
