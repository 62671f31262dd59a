/**
 * The diff pipeline with checkpoints: every completed step is offered to the store, and a run that starts
 * from any offered checkpoint goes on exactly as the uninterrupted run does.
 */
module Pipeline {
  import opened Options
  import opened Items
  import opened Matching
  import opened PipelineSteps
  import opened PipelineOrder

  class PipelineRun<R(!new), F> {
    const cfg: Config
    const st: Stages<R, F>
    var session: Session<R, F>
    var cursor: Cursor
    var saved: seq<Checkpoint<R, F>>
    const resume: Option<Cursor>
    // The first point of the run and what was offered there; the points passed since.
    ghost const start: Point<R, F>
    ghost const first: seq<Checkpoint<R, F>>
    ghost var trail: seq<Point<R, F>>

    /** A run on fresh inputs. */
    constructor Fresh(cfg: Config, st: Stages<R, F>, session: Session<R, F>)
      ensures this.cfg == cfg && this.st == st && this.session == session && saved == [] && resume == None
      ensures cursor == Cursor(NO_STEP, 0, false, 0) && start == FirstPoint(st, session) && first == [Capture(start)]
      ensures Created()
    {
      this.cfg, this.st, this.session, resume := cfg, st, session, None;
      cursor, saved := Cursor(NO_STEP, 0, false, 0), [];
      start, first, trail := FirstPoint(st, session), [Capture(FirstPoint(st, session))], [];
    }

    /** A run that goes on from the checkpoint some point offered. */
    constructor Resume(cfg: Config, st: Stages<R, F>, checkpoint: Checkpoint<R, F>, ghost p: Point<R, F>)
      requires checkpoint == Capture(p)
      ensures this.cfg == cfg && this.st == st && session == Restore(checkpoint) && saved == []
      ensures resume == Some(p.cursor) && cursor == p.cursor && start == p && first == []
      ensures Created()
    {
      this.cfg, this.st, session, resume := cfg, st, Restore(checkpoint), Some(checkpoint.cursor);
      cursor, saved := checkpoint.cursor, [];
      start, first, trail := p, [], [];
    }

    ghost function Here(): Point<R, F>
      reads this
    {
      Point(cursor, session)
    }

    /** The run stands at the end of its trail, and has offered every checkpoint on the way. */
    ghost predicate OnTrack()
      reads this
    {
      && Trail(cfg, st, trail) && trail[0] == start
      && Here() == trail[|trail| - 1]
      && saved == first + Captures(trail[1..])
      && |session.matches.lists| == 3
    }

    ghost predicate Ready(step: Step)
      reads this
    {
      OnTrack() && cursor.done != FIND_UNMATCHED && NextStep(cfg, Here()) == step
    }

    method Save(step: Step)
      modifies `cursor, `saved
      ensures cursor == old(cursor).(done := step) && saved == old(saved) + [Capture(Here())]
    {
      cursor := cursor.(done := step);
      saved := saved + [Capture(Point(cursor, session))];
    }

    ghost method Count(was: Point<R, F>, before: seq<Checkpoint<R, F>>)
      requires Trail(cfg, st, trail) && trail[0] == start && was == trail[|trail| - 1] &&
        before == first + Captures(trail[1..])
      requires Here() == Next(cfg, st, was) && saved == before + [Capture(Here())] && |session.matches.lists| == 3
      modifies `trail
      ensures OnTrack() && trail == old(trail) + [Here()]
    {
      TrailGrows(cfg, st, trail, Here());
      assert (trail + [Here()])[1..] == trail[1..] + [Here()];
      trail := trail + [Here()];
    }

    method RunStep(f: Stage<R>, step: Step)
      requires Ready(step) && Enter(cfg, st, Here(), step) == Point(cursor.(done := step), RunStage(f, session))
      requires |RunStage(f, session).matches.lists| == 3
      modifies this
      ensures OnTrack() && Here() == old(Enter(cfg, st, Here(), step))
    {
      ghost var was, before := Here(), saved;
      var r := f(session.matches, session.rest, session.prepared);
      session := session.(matches := r.0, rest := r.1);
      Save(step);
      Count(was, before);
    }

    method RunLoopStep(f: LoopStage<R>, step: Step)
      requires Ready(step)
      requires Enter(cfg, st, Here(), step) == Point(cursor.(done := step), RunLoopStage(f, session, cursor.iteration))
      requires |RunLoopStage(f, session, cursor.iteration).matches.lists| == 3
      modifies this
      ensures OnTrack() && Here() == old(Enter(cfg, st, Here(), step))
    {
      ghost var was, before := Here(), saved;
      var r := f(session.matches, session.rest, session.prepared, cursor.iteration);
      session := session.(matches := r.0, rest := r.1);
      Save(step);
      Count(was, before);
    }

    method RunDirty()
      requires Ready(DIRTY_HEURISTICS) && !cursor.skipOthers
      requires |Enter(cfg, st, Here(), DIRTY_HEURISTICS).session.matches.lists| == 3
      modifies this
      ensures OnTrack() && Here() == old(Enter(cfg, st, Here(), DIRTY_HEURISTICS))
    {
      ghost var was, before := Here(), saved;
      var skipOthers := cursor.skipOthers;
      session := session.(sameProcessor := st.sameProcessor(session.matches, session.rest));
      session := session.(prepared := Some(session.sameProcessor));
      if cfg.experimental {
        skipOthers := st.dirtyFired(session.matches, session.rest, session.prepared);
        var r := st.dirty(session.matches, session.rest, session.prepared);
        session := session.(matches := r.0, rest := r.1);
      }
      cursor := cursor.(skipOthers := skipOthers);
      Save(DIRTY_HEURISTICS);
      Count(was, before);
    }

    method TopCleanup(iteration: nat)
      requires Ready(LOOP_CLEANUP_TOP) && NextIteration(Here()) == iteration
      modifies this
      ensures OnTrack() && Here() == old(TopStep(Here()))
    {
      ghost var was, before := Here(), saved;
      CleanUpAtTop(iteration);
      EnterTop(cfg, st, was);
      CountEntered(was, before, LOOP_CLEANUP_TOP);
    }

    ghost method CountEntered(was: Point<R, F>, before: seq<Checkpoint<R, F>>, step: Step)
      requires Trail(cfg, st, trail) && trail[0] == start && was == trail[|trail| - 1] &&
        before == first + Captures(trail[1..])
      requires was.cursor.done != FIND_UNMATCHED && |was.session.matches.lists| == 3 && NextStep(cfg, was) == step
      requires Here() == Enter(cfg, st, was, step) && saved == before + [Capture(Here())] &&
        |session.matches.lists| == 3
      modifies `trail
      ensures OnTrack() && trail == old(trail) + [Here()]
    {
      NextEnters(cfg, st, was, step);
      Count(was, before);
    }

    method CleanUpAtTop(iteration: nat)
      requires |session.matches.lists| == 3 && NextIteration(Here()) == iteration
      modifies `cursor, `session, `saved
      ensures Here() == old(TopStep(Here())) && saved == old(saved) + [Capture(Here())] && |session.matches.lists| == 3
    {
      cursor := cursor.(iteration := iteration);
      session := session.(iteration := Some(iteration));
      session := session.(matches := session.matches.CleanedUp());
      cursor := cursor.(oldTotal := session.matches.TotalMatched());
      Save(LOOP_CLEANUP_TOP);
    }

    /** Start an iteration; its first cleanup runs unless the resumed checkpoint was written after it. */
    method LoopHead(iteration: nat, loopDone: nat)
      requires OnTrack()
      requires loopDone < 8 ==> Ready(LOOP_CLEANUP_TOP) && NextIteration(Here()) == iteration
      requires loopDone >= 8 ==> iteration == cursor.iteration && session.iteration == Some(iteration)
      modifies this
      ensures OnTrack()
      ensures Here() == if loopDone < 8 then old(TopStep(Here())) else old(Here())
    {
      if loopDone < LOOP_CLEANUP_TOP {
        TopCleanup(iteration);
      } else {
        cursor := cursor.(iteration := iteration);
        session := session.(iteration := Some(iteration));
      }
    }

    method LoopTail()
      requires Ready(LOOP_CLEANUP_BOTTOM)
      modifies this
      ensures OnTrack() && Here() == old(Enter(cfg, st, Here(), LOOP_CLEANUP_BOTTOM))
    {
      ghost var was, before := Here(), saved;
      CleanUpAtBottom();
      CountEntered(was, before, LOOP_CLEANUP_BOTTOM);
    }

    method CleanUpAtBottom()
      requires |session.matches.lists| == 3
      modifies `cursor, `session, `saved
      ensures Here() == old(Enter(cfg, st, Here(), LOOP_CLEANUP_BOTTOM))
      ensures saved == old(saved) + [Capture(Here())] && |session.matches.lists| == 3
    {
      session := session.(matches := session.matches.CleanedUp());
      Save(LOOP_CLEANUP_BOTTOM);
    }

    /** The stages keep to the names of the exports, and everything known about runs held at the start. */
    ghost predicate Founded(names1: set<Text>, names2: set<Text>) {
      StagesOk(st, names1, names2) && Fits(cfg, start, names1, names2)
    }

    lemma {:induction false} HereFits(names1: set<Text>, names2: set<Text>)
      requires Founded(names1, names2) && OnTrack()
      ensures Fits(cfg, Here(), names1, names2)
    {
      TrailIterates(cfg, st, trail, |trail| - 1);
      RunFits(cfg, st, start, |trail| - 1, names1, names2);
    }

    lemma {:induction false} IterationHere(names1: set<Text>, names2: set<Text>)
      requires Founded(names1, names2) && OnTrack() && 8 <= cursor.done <= 13
      ensures session.iteration == Some(cursor.iteration)
      ensures cursor.done == RELATED_MATCHES ==> cfg.slowHeuristics
    {
      HereFits(names1, names2);
    }

    /** The totals the loop compares stay within the name pairs, and the bottom cleanup leaves nothing to clean. */
    lemma {:induction false} TotalsHere(names1: set<Text>, names2: set<Text>)
      requires Founded(names1, names2) && OnTrack()
      ensures 8 <= cursor.done <= 13 ==> cursor.oldTotal <= |names1| * |names2|
      ensures cursor.done == LOOP_CLEANUP_BOTTOM ==>
        session.matches.CleanedUp().TotalMatched() == session.matches.TotalMatched() <= |names1| * |names2|
      ensures session.matches.CleanedUp().TotalMatched() <= |names1| * |names2|
    {
      HereFits(names1, names2);
      MatchBounds(session.matches, names1, names2);
    }

    /** A loop stage that is pending runs, and only the done step of the cursor moves. */
    method LoopStageIfPending(step: Step, loopDone: nat, ghost names1: set<Text>, ghost names2: set<Text>)
      requires Founded(names1, names2) && OnTrack() &&
        step in {MATCHES_DIFFING, RELATED_MATCHES, RELATED_COMPILATION_UNIT, LOCALLY_AFFINE}
      requires loopDone < step ==> cursor.done == StepBefore(cfg, step)
      requires step == RELATED_MATCHES ==> cfg.slowHeuristics
      modifies this
      ensures OnTrack()
      ensures cursor == if loopDone < step then old(cursor).(done := step) else old(cursor)
      ensures loopDone >= step ==> Here() == old(Here())
    {
      if loopDone < step {
        HereFits(names1, names2);
        NextFits(cfg, st, Here(), names1, names2);
        if step == MATCHES_DIFFING {
          RunLoopStep(st.diffing, step);
        } else if step == RELATED_MATCHES {
          RunLoopStep(st.related, step);
        } else if step == RELATED_COMPILATION_UNIT {
          RunLoopStep(st.relatedUnit, step);
        } else {
          RunLoopStep(st.affine, step);
        }
      }
    }

    /** find_matches_diffing and, when slow heuristics are on, find_related_matches. */
    method EarlyStages(loopDone: nat, ghost names1: set<Text>, ghost names2: set<Text>)
      requires Founded(names1, names2) && OnTrack() && (loopDone < 9 ==> cursor.done == LOOP_CLEANUP_TOP)
      requires loopDone == 9 ==> cursor.done == MATCHES_DIFFING
      modifies this
      ensures OnTrack()
      ensures loopDone < 10 ==>
        cursor == old(cursor).(done := if cfg.slowHeuristics then RELATED_MATCHES else MATCHES_DIFFING)
      ensures loopDone >= 10 ==> Here() == old(Here())
    {
      LoopStageIfPending(MATCHES_DIFFING, loopDone, names1, names2);
      if cfg.slowHeuristics {
        LoopStageIfPending(RELATED_MATCHES, loopDone, names1, names2);
      }
    }

    method LateStages(loopDone: nat, ghost names1: set<Text>, ghost names2: set<Text>)
      requires Founded(names1, names2) && OnTrack()
      requires loopDone < 11 ==> cursor.done == if cfg.slowHeuristics then RELATED_MATCHES else MATCHES_DIFFING
      requires loopDone == 11 ==> cursor.done == RELATED_COMPILATION_UNIT
      modifies this
      ensures OnTrack()
      ensures loopDone < 12 ==> cursor == old(cursor).(done := LOCALLY_AFFINE)
      ensures loopDone >= 12 ==> Here() == old(Here())
    {
      LoopStageIfPending(RELATED_COMPILATION_UNIT, loopDone, names1, names2);
      LoopStageIfPending(LOCALLY_AFFINE, loopDone, names1, names2);
    }

    method TailIfPending(loopDone: nat, ghost names1: set<Text>, ghost names2: set<Text>)
      requires Founded(names1, names2) && OnTrack() && (loopDone < 13 ==> cursor.done == LOCALLY_AFFINE)
      modifies this
      ensures OnTrack()
      ensures loopDone < 13 ==> cursor == old(cursor).(done := LOOP_CLEANUP_BOTTOM)
      ensures loopDone >= 13 ==> Here() == old(Here())
    {
      if loopDone < 13 {
        LoopTail();
      }
    }

    ghost predicate AtHead(iteration: nat, loopDone: nat)
      requires |session.matches.lists| == 3
      reads this
    {
      if loopDone != 0 then 8 <= cursor.done == loopDone <= 13 && iteration == cursor.iteration
      else if cursor.done == SMALL_DIFFERENCES then iteration == 0
      else
        && cursor.done == LOOP_CLEANUP_BOTTOM && session.matches.TotalMatched() > cursor.oldTotal
        && iteration == cursor.iteration + 1
    }

    /** One iteration, or what is left of it after the step `loopDone`. */
    method OneIteration(iteration: nat, loopDone: nat, ghost names1: set<Text>, ghost names2: set<Text>)
      requires Founded(names1, names2) && OnTrack()
      requires AtHead(iteration, loopDone)
      modifies this
      ensures OnTrack()
      ensures cursor.done == LOOP_CLEANUP_BOTTOM && cursor.iteration == iteration
      ensures cursor.oldTotal ==
        if loopDone == 0 then old(session.matches.CleanedUp().TotalMatched()) else old(cursor.oldTotal)
    {
      if loopDone != 0 {
        IterationHere(names1, names2);
      }
      LoopHead(iteration, loopDone);
      EarlyStages(loopDone, names1, names2);
      LateStages(loopDone, names1, names2);
      TailIfPending(loopDone, names1, names2);
    }

    /** What bounds the iterations to come: the total grows in each and stays within the name pairs. */
    ghost function Left(loopDone: nat, bound: nat): int
      requires |session.matches.lists| == 3
      reads this
    {
      if loopDone != 0 then bound - cursor.oldTotal
      else if cursor.done == SMALL_DIFFERENCES then bound + 1
      else bound - session.matches.TotalMatched()
    }

    /** One iteration and the test behind it. */
    method Round(iteration: nat, loopDone: nat, ghost names1: set<Text>, ghost names2: set<Text>) returns (more: bool)
      requires Founded(names1, names2) && OnTrack() && AtHead(iteration, loopDone)
      modifies this
      ensures OnTrack()
      ensures old(Left(loopDone, |names1| * |names2|)) >= 0 && cursor.done == LOOP_CLEANUP_BOTTOM
      ensures more == (session.matches.TotalMatched() > cursor.oldTotal)
      ensures more ==>
        Left(0, |names1| * |names2|) < old(Left(loopDone, |names1| * |names2|)) && AtHead(iteration + 1, 0)
    {
      TotalsHere(names1, names2);
      OneIteration(iteration, loopDone, names1, names2);
      TotalsHere(names1, names2);
      more := session.matches.TotalMatched() > cursor.oldTotal;
    }

    /** The convergence loop: iterate until an iteration does not raise the total. */
    method RunLoop(resumed: nat, ghost names1: set<Text>, ghost names2: set<Text>)
      requires Founded(names1, names2) && OnTrack()
      requires if 8 <= resumed <= 13 then InLoop(cursor.done) && cursor.done == resumed
        else cursor.done == SMALL_DIFFERENCES
      modifies this
      ensures OnTrack()
      ensures cursor.done == LOOP_CLEANUP_BOTTOM && session.matches.TotalMatched() <= cursor.oldTotal
    {
      var iteration: nat, loopDone: nat := 0, 0;
      if 8 <= resumed <= 13 {
        iteration, loopDone := cursor.iteration, resumed;
      }
      while true
        invariant OnTrack()
        invariant AtHead(iteration, loopDone)
        decreases Left(loopDone, |names1| * |names2|)
      {
        var more := Round(iteration, loopDone, names1, names2);
        loopDone := 0;
        if !more {
          break;
        }
        iteration := iteration + 1;
      }
    }

    /** What a run knows before its first statement. */
    ghost predicate Created()
      reads this
    {
      && saved == [] && trail == []
      && (resume.None? ==>
        cursor == Cursor(NO_STEP, 0, false, 0) && start == FirstPoint(st, session) && first == [Capture(start)])
      && (resume.Some? ==>
        resume == Some(start.cursor) && cursor == start.cursor && session == Restore(Capture(start)) && first == [])
    }

    /** Everything up to find_equal_matches; a resumed run has it behind it. */
    method Begin(ghost names1: set<Text>, ghost names2: set<Text>) returns (ok: bool)
      requires Created() && Founded(names1, names2)
      modifies this
      ensures ok == (resume.Some? || st.versionOk)
      ensures ok ==> trail == [start] && saved == first && cursor == start.cursor
      ensures ok ==> session == start.session.(prepared := None)
    {
      if resume.Some? {
        RestoreUndoesCapture(start);
        trail := [start];
        return true;
      }
      if !st.versionOk {
        return false;
      }
      session := session.(iteration := None);
      var r := st.equalMatches(session.matches, session.rest, session.prepared);
      session := session.(matches := r.0, rest := r.1);
      Save(EQUAL_MATCHES);
      trail := [start];
      return true;
    }

    lemma {:induction false} TrackOfOne()
      requires trail == [start] && saved == first && Here() == start && |session.matches.lists| == 3
      ensures OnTrack()
    {
      assert Captures(trail[1..]) == [];
    }

    /** apply_dirty_heuristics, or only the preparation of the engine when it is done already. */
    method DirtyPhase(resumed: nat, ghost names1: set<Text>, ghost names2: set<Text>)
      requires Founded(names1, names2) && trail == [start] && saved == first && cursor == start.cursor
      requires session == start.session.(prepared := None)
      requires if resumed >= 2 then cursor.done == resumed else cursor.done == EQUAL_MATCHES
      modifies this
      ensures OnTrack() && cursor.done == if resumed >= 2 then resumed else DIRTY_HEURISTICS
    {
      if resumed < DIRTY_HEURISTICS {
        TrackOfOne();
        NextFits(cfg, st, Here(), names1, names2);
        RunDirty();
      } else {
        session := session.(prepared := Some(session.sameProcessor));
        TrackOfOne();
      }
    }

    /** One step outside the loop, unless the resumed run has it behind it. */
    method StepIfPending(f: Stage<R>, step: Step, resumed: nat, ghost names1: set<Text>, ghost names2: set<Text>)
      requires Founded(names1, names2) && OnTrack()
      requires resumed < step ==>
        Ready(step) && Enter(cfg, st, Here(), step) == Point(cursor.(done := step), RunStage(f, session))
      modifies this
      ensures OnTrack() && cursor == if resumed < step then old(cursor).(done := step) else old(cursor)
    {
      if resumed < step {
        HereFits(names1, names2);
        NextFits(cfg, st, Here(), names1, names2);
        RunStep(f, step);
      }
    }

    /** The heuristic categories and the convergence loop. */
    method CategoryPhase(resumed: nat, ghost names1: set<Text>, ghost names2: set<Text>)
      requires Founded(names1, names2) && OnTrack() && !cursor.skipOthers
      requires if resumed >= 5 then cursor.done == resumed else
        cursor.done == if cfg.ignoreAllNames then DIRTY_HEURISTICS else SAME_NAME
      modifies this
      ensures OnTrack() && cursor.done == if resumed >= 14 then resumed else LOOP_CLEANUP_BOTTOM
      ensures resumed < 14 ==> session.matches.TotalMatched() <= cursor.oldTotal
    {
      StepIfPending(st.best, BEST_CATEGORY, resumed, names1, names2);
      StepIfPending(st.partial, PARTIAL_CATEGORY, resumed, names1, names2);
      StepIfPending(st.small, SMALL_DIFFERENCES, resumed, names1, names2);
      if resumed < FINAL_PASS {
        RunLoop(resumed, names1, names2);
      }
    }

    method FinalIfPending(resumed: nat, ghost names1: set<Text>, ghost names2: set<Text>)
      requires Founded(names1, names2) && OnTrack()
      requires if resumed >= 14 then cursor.done == resumed else Ready(FINAL_PASS)
      modifies this
      ensures OnTrack() && cursor.done == if resumed >= 14 then resumed else FINAL_PASS
    {
      HereFits(names1, names2);
      ghost var was, before := Here(), saved;
      session := session.(iteration := None);
      cursor := cursor.(iteration := 0);
      if resumed < FINAL_PASS {
        NextFits(cfg, st, was, names1, names2);
        var r := st.finalPass(session.matches, session.rest, session.prepared);
        session := session.(matches := r.0, rest := r.1);
        session := session.(choosers := Some(st.choosers(session.matches, session.rest)));
        Save(FINAL_PASS);
        Count(was, before);
      }
    }

    method UnmatchedIfPending(resumed: nat, ghost names1: set<Text>, ghost names2: set<Text>)
      requires Founded(names1, names2) && OnTrack() && resumed <= 15
      requires cursor.done == if resumed >= 14 then resumed else FINAL_PASS
      modifies this
      ensures OnTrack() && cursor.done == FIND_UNMATCHED
    {
      if resumed < FIND_UNMATCHED {
        HereFits(names1, names2);
        ghost var was, before := Here(), saved;
        session := session.(unmatched := Some(st.unmatched(session.matches, session.rest, session.choosers)));
        Save(FIND_UNMATCHED);
        Count(was, before);
      }
    }

    /** find_same_name, when names count at all. */
    method NamePhase(resumed: nat, ghost names1: set<Text>, ghost names2: set<Text>)
      requires Founded(names1, names2) && OnTrack()
      requires cursor.done == if resumed >= 2 then resumed else DIRTY_HEURISTICS
      modifies this
      ensures OnTrack() && cursor.skipOthers == old(cursor.skipOthers)
      ensures cursor.done ==
        if resumed >= 3 then resumed else if cfg.ignoreAllNames then DIRTY_HEURISTICS else SAME_NAME
    {
      if !cfg.ignoreAllNames {
        StepIfPending(st.sameName, SAME_NAME, resumed, names1, names2);
      }
    }

    /** What the branch on skip_others leaves: the final pass comes next, or is done already. */
    method BranchPhase(resumed: nat, ghost names1: set<Text>, ghost names2: set<Text>)
      requires Founded(names1, names2) && OnTrack()
      requires cursor.done ==
        if resumed >= 3 then resumed else if cfg.ignoreAllNames then DIRTY_HEURISTICS else SAME_NAME
      modifies this
      ensures OnTrack() && if resumed >= 14 then cursor.done == resumed else Ready(FINAL_PASS)
    {
      CursorHere(names1, names2);
      if cursor.skipOthers {
        StepIfPending(st.remaining, REMAINING_FUNCTIONS, resumed, names1, names2);
      } else {
        CategoryPhase(resumed, names1, names2);
      }
    }

    lemma {:induction false} CursorHere(names1: set<Text>, names2: set<Text>)
      requires Founded(names1, names2) && OnTrack()
      ensures CursorFits(cfg, cursor)
    {
      HereFits(names1, names2);
    }

    /** The points the run has passed are those of a finished run. */
    lemma {:induction false} TrailFinished(names1: set<Text>, names2: set<Text>)
      requires Founded(names1, names2) && OnTrack() && cursor.done == FIND_UNMATCHED
      ensures Finished(cfg, st, trail)
    {
      forall i: nat | i < |trail| ensures |trail[i].session.matches.lists| == 3 {
        TrailIterates(cfg, st, trail, i);
        RunFits(cfg, st, start, i, names1, names2);
      }
    }

    /** What a run on fresh inputs has done in the end. */
    lemma {:induction false} RunIsComposed(s: Session<R, F>, names1: set<Text>, names2: set<Text>)
      returns (works: seq<Work<R>>)
      requires Founded(names1, names2) && OnTrack() && cursor.done == FIND_UNMATCHED && start == FirstPoint(st, s)
      ensures Composed(cfg, st, Cleanups(), s, works, session)
    {
      TrailFinished(names1, names2);
      assert SessionFits(start);
      works := FinishedIsComposed(cfg, st, Cleanups(), trail, s);
    }

    /** Run every step the resumed checkpoint has not behind it, up to find_unmatched. A run on fresh inputs has done
        all stages in order in the end. */
    method RunPipeline(ghost names1: set<Text>, ghost names2: set<Text>) returns (ok: bool)
      requires Created() && Founded(names1, names2)
      modifies this
      ensures ok == (resume.Some? || st.versionOk)
      ensures ok ==> OnTrack() && cursor.done == FIND_UNMATCHED
      ensures ok && resume.None? ==> exists works :: Composed(cfg, st, Cleanups(), old(session), works, session)
    {
      var resumed: nat := if resume.Some? then resume.value.done else NO_STEP;
      ok := Begin(names1, names2);
      if !ok {
        return;
      }
      DirtyPhase(resumed, names1, names2);
      NamePhase(resumed, names1, names2);
      BranchPhase(resumed, names1, names2);
      FinalIfPending(resumed, names1, names2);
      UnmatchedIfPending(resumed, names1, names2);
      if resume.None? {
        ghost var works := RunIsComposed(old(session), names1, names2);
      }
    }

    /** The i-th checkpoint offered after the start is the one of the i-th step. */
    ghost predicate OfferedAt(i: nat)
      reads this
    {
      |first| + i < |saved| && saved[|first| + i] == Capture(Iterate(cfg, st, start, i + 1))
    }

    /** The result of a finished run: the last point of the uninterrupted one, and every checkpoint on the way. */
    lemma {:induction false} FinishedRun() returns (n: nat)
      requires OnTrack() && cursor.done == FIND_UNMATCHED
      ensures session == Iterate(cfg, st, start, n).session && Iterate(cfg, st, start, n).cursor.done == FIND_UNMATCHED
      ensures |saved| == |first| + n && forall i: nat :: i < n ==> OfferedAt(i)
    {
      n := |trail| - 1;
      TrailIterates(cfg, st, trail, n);
      forall i: nat | i < n ensures OfferedAt(i) {
        var j := i + 1;
        TrailIterates(cfg, st, trail, j);
        assert saved[|first| + i] == Captures(trail[1..])[i] == Capture(trail[j]);
      }
    }
  }

  lemma {:induction false} MatchBounds(m: Matches, names1: set<Text>, names2: set<Text>)
    requires NamesOk(m, names1, names2)
    ensures m.CleanedUp().TotalMatched() <= |names1| * |names2|
    ensures Settled(m) ==> m.CleanedUp().TotalMatched() == m.TotalMatched() <= |names1| * |names2|
  {
    TotalBounded(m, names1, names2);
    if Settled(m) {
      SettledStays(m);
    }
  }

  /** The loop stage before another, given the configuration. */
  function StepBefore(cfg: Config, step: Step): Step {
    if step == MATCHES_DIFFING then LOOP_CLEANUP_TOP
    else if step == RELATED_MATCHES then MATCHES_DIFFING
    else if step == RELATED_COMPILATION_UNIT then if cfg.slowHeuristics then RELATED_MATCHES else MATCHES_DIFFING
    else if step == LOCALLY_AFFINE then RELATED_COMPILATION_UNIT
    else NO_STEP
  }

  /** A finished run that resumed from any checkpoint of another finished run ends in the same session. */
  lemma {:induction false} ResumedRunEndsTheSame<R(!new), F>(whole: PipelineRun<R, F>, resumed: PipelineRun<R, F>,
      k: nat)
    requires whole.cfg == resumed.cfg && whole.st == resumed.st
    requires whole.OnTrack() && whole.cursor.done == FIND_UNMATCHED
    requires resumed.OnTrack() && resumed.cursor.done == FIND_UNMATCHED
    requires resumed.start == Iterate(whole.cfg, whole.st, whole.start, k)
    ensures resumed.session == whole.session
  {
    var m := whole.FinishedRun();
    var n := resumed.FinishedRun();
    ResumeEqualsNoInterruption(whole.cfg, whole.st, whole.start, [k], n, m);
    assert [k][..0] == [];
  }

  /** The i-th checkpoint a finished run offered is the one of a point on its way. */
  lemma {:induction false} OfferedPoint<R(!new), F>(run: PipelineRun<R, F>, i: nat) returns (p: Point<R, F>, k: nat)
    requires run.OnTrack() && run.cursor.done == FIND_UNMATCHED && i < |run.saved|
    requires run.first == [] || run.first == [Capture(run.start)]
    ensures p == Iterate(run.cfg, run.st, run.start, k) && run.saved[i] == Capture(p)
  {
    var n := run.FinishedRun();
    if i < |run.first| {
      k := 0;
      p := run.start;
    } else {
      k := i - |run.first| + 1;
      p := Iterate(run.cfg, run.st, run.start, k);
      assert run.OfferedAt(i - |run.first|);
    }
  }

  /** Go on from the i-th checkpoint of a finished run, as after a kill right behind it. */
  method ResumeFrom<R(!new), F>(run: PipelineRun<R, F>, i: nat, ghost names1: set<Text>, ghost names2: set<Text>)
    returns (next: PipelineRun<R, F>)
    requires run.OnTrack() && run.cursor.done == FIND_UNMATCHED && run.Founded(names1, names2) && i < |run.saved|
    requires run.first == [] || run.first == [Capture(run.start)]
    ensures fresh(next) && next.OnTrack() && next.cursor.done == FIND_UNMATCHED && next.Founded(names1, names2) &&
      next.first == []
    ensures next.cfg == run.cfg && next.st == run.st && next.session == run.session
  {
    ghost var p, k := OfferedPoint(run, i);
    RunFits(run.cfg, run.st, run.start, k, names1, names2);
    next := new PipelineRun<R, F>.Resume(run.cfg, run.st, run.saved[i], p);
    var _ := next.RunPipeline(names1, names2);
    ResumedRunEndsTheSame(run, next, k);
  }

  /** A run on fresh inputs, then as many runs as there are picks, each from the picked checkpoint of the one before
      it (a pick beyond the offered ones is passed over): all end in the session in which the stages were done in
      order. */
  method RunAndResume<R(!new), F>(cfg: Config, st: Stages<R, F>, session: Session<R, F>, picks: seq<nat>,
      ghost names1: set<Text>, ghost names2: set<Text>)
      returns (whole: Option<Session<R, F>>, resumed: Option<Session<R, F>>)
    requires StagesOk(st, names1, names2) && NamesOk(session.matches, names1, names2)
    requires session.prepared == None && session.choosers == None && session.unmatched == None
    ensures whole == resumed && (whole.Some? <==> st.versionOk)
    ensures whole.Some? ==> exists works :: Composed(cfg, st, Cleanups(), session, works, whole.value)
  {
    FirstFits(cfg, st, session, names1, names2);
    var run := new PipelineRun<R, F>.Fresh(cfg, st, session);
    var ok := run.RunPipeline(names1, names2);
    if !ok {
      return None, None;
    }
    whole := Some(run.session);
    for i := 0 to |picks|
      invariant run.OnTrack() && run.cursor.done == FIND_UNMATCHED && run.Founded(names1, names2)
      invariant run.first == [] || run.first == [Capture(run.start)]
      invariant whole == Some(run.session)
    {
      if picks[i] < |run.saved| {
        run := ResumeFrom(run, picks[i], names1, names2);
      }
    }
    resumed := Some(run.session);
  }
}
