/** The shell agent that runs its children once each, in tree order. */
module SequentialAgent {
  import opened Wrappers
  import opened Events
  import opened Contexts
  import opened AgentStates
  import opened Orchestration

  /** The rest of a turn, from child `i` on, after `runs`. */
  function RunFrom(a: Shell, w: World, s: Snapshot, i: nat, resuming: bool, runs: seq<ChildRun>): TurnLog
    requires i <= |a.children|
    decreases |a.children| - i
  {
    if i == |a.children| then Log(runs, true)
    else
      match StepChild(a, w, s, 0, i, !resuming && s.resumable, |runs|)
      case Broke => Lost
      case Hung => Unfinished
      case Stepped(run, after) =>
        if run.paused then Log(runs + [run], false)
        else RunFrom(a, w, after, i + 1, false, runs + [run])
  }

  lemma RunFromUnfolds(a: Shell, w: World, s: Snapshot, i: nat, resuming: bool, runs: seq<ChildRun>, step: Step)
    requires i < |a.children| && step == StepChild(a, w, s, 0, i, !resuming && s.resumable, |runs|)
    ensures var log := RunFrom(a, w, s, i, resuming, runs);
            match step
            case Broke => log == Lost
            case Hung => log == Unfinished
            case Stepped(run, after) =>
              log == if run.paused then Log(runs + [run], false) else RunFrom(a, w, after, i + 1, false, runs + [run])
  {
  }

  lemma RunFromEnds(a: Shell, w: World, s: Snapshot, i: nat, resuming: bool, runs: seq<ChildRun>)
    requires i == |a.children|
    ensures RunFrom(a, w, s, i, resuming, runs) == Log(runs, true)
  {
  }

  /** A whole turn, opened on `s`; without children there is nothing to run or to mark. */
  function Turn(a: Shell, w: World, s: Snapshot): TurnLog {
    if a.children == [] then Log([], false)
    else
    var state := Tracked(a, s.marks.states);
    RunFrom(a, w, s, Start(a, state).1, state.Some?, [])
  }

  /** The loop over the children from `start` on. */
  method RunChildren(a: Shell, ctx: InvocationContext, w: World, start: nat, resumed: bool)
    returns (r: Result<seq<Event>, ()>, paused: bool, ghost runs: seq<ChildRun>)
    requires start <= |a.children| && !RunFrom(a, w, ctx.View(), start, resumed, []).Unfinished?
    modifies ctx`sessionState, ctx`agentStates, ctx`endOfAgents
    ensures RunFrom(a, w, old(ctx.View()), start, resumed, []) == if r.Err? then Lost else Log(runs, !paused)
    ensures r.Ok? ==> Recorded(a, old(ctx.View()), runs, r.value, ctx.View())
    ensures r.Ok? ==> ctx.TrackedMarks() == MarksAfter(a, old(ctx.TrackedMarks()), runs)
  {
    ghost var s0, s := ctx.View(), ctx.View();
    var events, resuming, started := [], resumed, 0;
    runs, paused := [], false;
    for i := start to |a.children|
      invariant |runs| == started && s == ctx.View() && !paused
      invariant RunFrom(a, w, s0, start, resumed, []) == RunFrom(a, w, s, i, resuming, runs)
      invariant Recorded(a, s0, runs, events, s)
      invariant s.marks == MarksAfter(a, s0.marks, runs)
    {
      var announced := !resuming && ctx.resumable;
      ghost var step := StepChild(a, w, s, 0, i, announced, started);
      RunFromUnfolds(a, w, s, i, resuming, runs, step);
      var escalated;
      r, escalated, paused := RunChild(a, ctx, w.script[started], 0, i, announced, events, w, s0, runs);
      if r.Err? {
        return;
      }
      MarksAfterOneMore(a, s0.marks, runs, step.run);
      events, started, resuming := r.value, started + 1, false;
      s, runs := step.after, runs + [step.run];
      if paused {
        return;
      }
    }
    r := Ok(events);
  }

  /** `SequentialAgent::run_async_impl`: it returns exactly the transcript of the turn it plays. */
  method RunAsyncImpl(a: Shell, ctx: InvocationContext, w: World) returns (r: Result<seq<Event>, ()>)
    requires !Turn(a, w, ctx.View()).Unfinished?
    modifies ctx`sessionState, ctx`agentStates, ctx`endOfAgents
    ensures r == Returned(a, old(ctx.View()), w, Turn(a, w, old(ctx.View())))
    ensures r.Ok? ==> ctx.sessionState == ApplyDeltas(old(ctx.sessionState), r.value)
    ensures var log := Turn(a, w, old(ctx.View()));
            r.Ok? ==>
              ctx.TrackedMarks() ==
              MarksAtEnd(a, MarksAfter(a, old(ctx.TrackedMarks()), log.runs), log.ended && ctx.resumable)
  {
    ghost var s0 := ctx.View();
    if a.children == [] {
      RecordedAll(a, w, s0, [], [], s0, false);
      return Ok([]);
    }
    var state := Tracked(a, ctx.agentStates);
    var paused;
    ghost var runs;
    r, paused, runs := RunChildren(a, ctx, w, Start(a, state).1, state.Some?);
    if r.Err? {
      return Err(());
    }
    RecordedAll(a, w, s0, runs, r.value, ctx.View(), !paused);
    if !paused && ctx.resumable {
      ctx.SetAgentState(a.name, None, true);
      r := Ok(r.value + [EndMarker(a, ctx.View(), w.end)]);
    }
  }

  // ----- Which children a turn runs -----

  /**
   * The turn of a sequential agent over `n` children from child `start` on: its runs are those of the
   * children from there in tree order, each once, until one pauses or the last is done; it is lost at the
   * first that fails, and unfinished if one never comes back.
   */
  ghost predicate RunsInOrder(n: nat, w: World, s: Snapshot, start: nat, resuming: bool, log: TurnLog) {
    match log
    case Log(runs, ended) =>
      Plays(w, s, resuming, runs) && start + |runs| <= n &&
      (forall k :: 0 <= k < |runs| ==> Spot(runs[k]) == (0, start + k)) &&
      (forall k :: 0 <= k < |runs| - 1 ==> !runs[k].paused) &&
      (ended <==> runs == [] || !runs[|runs| - 1].paused) && (ended ==> start + |runs| == n)
    case Lost =>
      exists k :: 0 <= k < |w.script| && start + k < n && w.script[k].outcome.Failed? && AllGoOn(w, s, k, false)
    case Unfinished => start + |w.script| < n && AllGoOn(w, s, |w.script|, false)
  }

  lemma {:induction false} RunsInOrderFrom(a: Shell, w: World, s0: Snapshot, start: nat, resumed: bool,
                                           s: Snapshot, i: nat, resuming: bool, runs: seq<ChildRun>)
    requires i == start + |runs| <= |a.children| && SameOutside(s0, s) && resuming == (resumed && runs == [])
    requires Plays(w, s0, resumed, runs) && AllGoOn(w, s0, |runs|, false)
    requires forall k :: 0 <= k < |runs| ==> Spot(runs[k]) == (0, start + k) && !runs[k].paused
    ensures RunsInOrder(|a.children|, w, s0, start, resumed, RunFrom(a, w, s, i, resuming, runs))
    decreases |a.children| - i
  {
    if i == |a.children| {
      RunFromEnds(a, w, s, i, resuming, runs);
    } else {
      var announced := !resuming && s.resumable;
      var step := StepChild(a, w, s, 0, i, announced, |runs|);
      RunFromUnfolds(a, w, s, i, resuming, runs, step);
      StepPlays(a, w, s0, s, 0, i, announced, resumed, runs);
      hide RunFrom;
      if step.Stepped? {
        assert step.run.paused || GoesOn(w, s0, |runs|, false);
        hide PlaysAt, GoesOn, AnyPauses, AnyEscalates, ApplyDeltas, Encode;
        if !step.run.paused {
          RunsInOrderFrom(a, w, s0, start, resumed, step.after, i + 1, false, runs + [step.run]);
        }
      }
    }
  }

  /** Every turn runs the children in order from its start, in a resumable context or not. */
  lemma TurnRunsInOrder(a: Shell, w: World, s: Snapshot)
    ensures a.children == [] ==> Turn(a, w, s) == Log([], false)
    ensures a.children != [] ==>
              RunsInOrder(|a.children|, w, s, Start(a, Tracked(a, s.marks.states)).1, a.name in s.marks.states, Turn(a, w, s))
  {
    if a.children != [] {
      var state := Tracked(a, s.marks.states);
      RunsInOrderFrom(a, w, s, Start(a, state).1, state.Some?, s, Start(a, state).1, state.Some?, []);
    }
  }

  /** There is only one round of children. */
  ghost predicate OncePerChild(runs: seq<ChildRun>) {
    forall k :: 0 <= k < |runs| ==> runs[k].times == 0
  }

  /** A turn of a resumable agent runs a contiguous stretch of children, up to a pause or to the last of them. */
  lemma {:induction false} StretchFrom(a: Shell, w: World, m: Marks, start: (nat, nat),
                                       s: Snapshot, i: nat, resuming: bool, runs: seq<ChildRun>)
    requires i <= |a.children| && s.resumable && LeafDiscipline(a, w)
    requires Underway(a, m, start, runs, if i < |a.children| then (0, i) else (1, 0), resuming)
    requires OncePerChild(runs)
    ensures var log := RunFrom(a, w, s, i, resuming, runs);
            log.Log? ==>
              Stretch(a, m, start, log) && OncePerChild(log.runs) &&
              (log.ended ==> After(|a.children|, start, log.runs) == (1, 0))
    decreases |a.children| - i
  {
    if i < |a.children| {
      var step := StepChild(a, w, s, 0, i, !resuming, |runs|);
      RunFromUnfolds(a, w, s, i, resuming, runs, step);
      if step.Stepped? {
        UnderwayStep(a, w, m, start, s, runs, (0, i), resuming);
        if !step.run.paused {
          StretchFrom(a, w, m, start, step.after, i + 1, false, runs + [step.run]);
        }
      }
    }
  }

  /** What a turn does, whatever its children do, when it is opened at a known position or afresh. */
  lemma TurnStretch(a: Shell, w: World, s: Snapshot, child: nat)
    requires a.kind.Sequential? && Distinct(a) && s.resumable && LeafDiscipline(a, w)
    requires StartsAt(a, StandingOf(s.marks, a.name), (0, child))
    ensures var log := Turn(a, w, s);
            log.Log? ==>
              Stretch(a, s.marks, (0, child), log) && OncePerChild(log.runs) &&
              (log.ended ==> After(|a.children|, (0, child), log.runs) == (1, 0))
  {
    var state := Tracked(a, s.marks.states);
    if state.Some? {
      RestoresPosition(a, 0, child);
    }
    StretchFrom(a, w, s.marks, (0, child), s, child, state.Some?, []);
  }
}
