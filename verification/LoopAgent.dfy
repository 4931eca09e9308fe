/** The shell agent that runs its children round after round, until one escalates or a bound is met. */
module LoopAgent {
  import opened Wrappers
  import opened Events
  import opened Agents
  import opened Contexts
  import opened AgentStates
  import opened Orchestration

  /** `is_none_or(|max| times < max)`. */
  predicate MayLoop(max: Option<nat>, times: nat) {
    max.None? || times < max.value
  }

  /** The round is over and the children are reset. */
  function EndRound(a: Shell, s: Snapshot): Snapshot {
    s.(marks := Without(s.marks, set c <- a.children))
  }

  /**
   * The rest of a turn, from position `(times, i)` on, after `runs`.  Counting a round past 32 bits
   * overflows, which loses the turn like any other error.
   */
  function RunFrom(a: Shell, max: Option<nat>, w: World, s: Snapshot,
                   times: nat, i: nat, resuming: bool, runs: seq<ChildRun>): TurnLog
    decreases |w.script| - |runs|
  {
    if !MayLoop(max, times) then Log(runs, true)
    else
      match StepChild(a, w, s, times, i, s.resumable && !resuming, |runs|)
      case Broke => Lost
      case Hung => Unfinished
      case Stepped(run, after) =>
        if run.paused then Log(runs + [run], false)
        else if !run.escalated && i + 1 < |a.children| then
          RunFrom(a, max, w, after, times, i + 1, false, runs + [run])
        else if times + 1 == U32_LIMIT then Lost
        else if run.escalated then Log(runs + [run], true)
        else RunFrom(a, max, w, EndRound(a, after), times + 1, 0, false, runs + [run])
  }

  /** A whole turn, opened on `s`; without children there is nothing to run or to mark. */
  function Turn(a: Shell, max: Option<nat>, w: World, s: Snapshot): TurnLog {
    if a.children == [] then Log([], false)
    else
      var state := Tracked(a, s.marks.states);
      var (times, i) := Start(a, state);
      RunFrom(a, max, w, s, times, i, state.Some?, [])
  }

  lemma RunFromUnfolds(a: Shell, max: Option<nat>, w: World, s: Snapshot,
                       times: nat, i: nat, resuming: bool, runs: seq<ChildRun>, step: Step)
    requires MayLoop(max, times)
    requires step == StepChild(a, w, s, times, i, s.resumable && !resuming, |runs|)
    ensures var log := RunFrom(a, max, w, s, times, i, resuming, runs);
            match step
            case Broke => log == Lost
            case Hung => log == Unfinished
            case Stepped(run, after) =>
              log ==
              if run.paused then Log(runs + [run], false)
              else if !run.escalated && i + 1 < |a.children| then
                RunFrom(a, max, w, after, times, i + 1, false, runs + [run])
              else if times + 1 == U32_LIMIT then Lost
              else if run.escalated then Log(runs + [run], true)
              else RunFrom(a, max, w, EndRound(a, after), times + 1, 0, false, runs + [run])
  {
  }

  // ----- The walk that resets the children -----

  /** A shell whose children are leaves, as a context holds it. */
  function AgentOf(a: Shell): Agent {
    Agent(a.name, seq(|a.children|, i requires 0 <= i < |a.children| => Agent(a.children[i], [])))
  }

  lemma {:induction false} LeavesVisited(root: Agent, subs: seq<Agent>)
    requires forall i :: 0 <= i < |subs| ==> subs[i].name != root.name && subs[i].subAgents == []
    requires forall i :: 0 <= i < |root.subAgents| ==> root.subAgents[i].subAgents == []
    ensures HaltsAmong(root, subs, 1) && VisitedAmong(root, subs, 1) == set x <- subs :: x.name
    decreases |subs|
  {
    if subs != [] {
      LeavesVisited(root, subs[1..]);
      LeafFound(root.subAgents, subs[0].name);
    }
  }

  lemma {:induction false} LeafFound(subs: seq<Agent>, name: string)
    requires forall i :: 0 <= i < |subs| ==> subs[i].subAgents == []
    ensures FindAmong(subs, name).Some? ==> FindAmong(subs, name).value.subAgents == []
  {
    if subs != [] {
      assert FindAmong(subs[0].subAgents, name).None?;
      LeafFound(subs[1..], name);
    }
  }

  /** The walk below a shell of leaves visits exactly its children, provided none bears the shell's own name. */
  lemma ShellVisits(a: Shell)
    requires a.name !in a.children
    ensures Halts(AgentOf(a), a.name, 2) && Visited(AgentOf(a), a.name, 2) == set c <- a.children
  {
    var root := AgentOf(a);
    LeavesVisited(root, root.subAgents);
    forall c | c in a.children ensures c in set x <- root.subAgents :: x.name {
      var i :| 0 <= i < |a.children| && a.children[i] == c;
      assert root.subAgents[i].name == c && root.subAgents[i] in root.subAgents;
    }
  }

  // ----- What a turn leaves in its context -----

  /** The run is the last of its round. */
  predicate EndsRound(n: nat, run: ChildRun) {
    !run.paused && (run.escalated || run.child + 1 >= n)
  }

  /** The marks after the runs of a turn: each is announced or not, and the children are reset after each round. */
  function MarksAfterRounds(a: Shell, m: Marks, runs: seq<ChildRun>): Marks {
    if runs == [] then m
    else
      var run := runs[|runs| - 1];
      var after := Marked(a, MarksAfterRounds(a, m, runs[..|runs| - 1]), run);
      if EndsRound(|a.children|, run) then Without(after, set c <- a.children) else after
  }

  function Marked(a: Shell, m: Marks, run: ChildRun): Marks {
    if run.announced then SetMark(m, a.name, Some(Encode(a, run.times, run.child)), false) else m
  }

  /** The marks as the last of the runs left them, before its round was counted. */
  function MarksAtLast(a: Shell, m: Marks, runs: seq<ChildRun>): Marks {
    if runs == [] then m else Marked(a, MarksAfterRounds(a, m, runs[..|runs| - 1]), runs[|runs| - 1])
  }

  lemma OneMoreMarked(a: Shell, m: Marks, runs: seq<ChildRun>, run: ChildRun)
    ensures MarksAtLast(a, m, runs + [run]) == Marked(a, MarksAfterRounds(a, m, runs), run)
    ensures MarksAfterRounds(a, m, runs + [run]) ==
            if EndsRound(|a.children|, run) then Without(MarksAtLast(a, m, runs + [run]), set c <- a.children)
            else MarksAtLast(a, m, runs + [run])
  {
    assert (runs + [run])[..|runs|] == runs;
  }

  lemma StepMarked(a: Shell, w: World, s: Snapshot, times: nat, i: nat, announced: bool, k: nat)
    ensures var step := StepChild(a, w, s, times, i, announced, k);
            (!step.Hung? ==> k < |w.script|) &&
            (step.Stepped? ==> step.run.child == i && step.after.marks == Marked(a, s.marks, step.run))
  {
  }

  /** The round has come to child `i`, or to its end, and the rest of it gives `log`. */
  ghost predicate OnTheWay(a: Shell, max: Option<nat>, w: World, s: Snapshot, times: nat, i: nat, resuming: bool,
                           runs: seq<ChildRun>, log: TurnLog)
  {
    log ==
    if i < |a.children| then RunFrom(a, max, w, s, times, i, resuming, runs)
    else if times + 1 == U32_LIMIT then Lost
    else RunFrom(a, max, w, EndRound(a, s), times + 1, 0, false, runs)
  }

  lemma StaysOnTheWay(a: Shell, max: Option<nat>, w: World, s: Snapshot, times: nat, i: nat, resuming: bool,
                      runs: seq<ChildRun>, log: TurnLog, step: Step)
    requires i < |a.children| && MayLoop(max, times) && OnTheWay(a, max, w, s, times, i, resuming, runs, log)
    requires step == StepChild(a, w, s, times, i, s.resumable && !resuming, |runs|)
    ensures match step
            case Broke => log == Lost
            case Hung => log == Unfinished
            case Stepped(run, after) =>
              if run.paused then log == Log(runs + [run], false)
              else if run.escalated then log == if times + 1 == U32_LIMIT then Lost else Log(runs + [run], true)
              else OnTheWay(a, max, w, after, times, i + 1, false, runs + [run], log)
  {
    RunFromUnfolds(a, max, w, s, times, i, resuming, runs, step);
    hide RunFrom, StepChild, MayLoop;
  }

  predicate RoundDone(a: Shell, runs: seq<ChildRun>) {
    runs != [] && EndsRound(|a.children|, runs[|runs| - 1])
  }

  /** The marks on the way through a round, if it began with those of the rounds before: at child `i`. */
  ghost predicate InRound(a: Shell, m: Marks, runs: seq<ChildRun>, i: nat, marks: Marks, kept: bool) {
    kept ==> marks == if i < |a.children| then MarksAfterRounds(a, m, runs) else MarksAtLast(a, m, runs)
  }

  /** One more run: the round goes on at the next child, or this was its last run. */
  lemma StaysInRound(a: Shell, m: Marks, runs: seq<ChildRun>, i: nat, marks: Marks, kept: bool, run: ChildRun, marks': Marks)
    requires i < |a.children| && InRound(a, m, runs, i, marks, kept)
    requires run.child == i && marks' == Marked(a, marks, run)
    ensures kept ==> marks' == MarksAtLast(a, m, runs + [run])
    ensures (runs + [run])[|runs + [run]| - 1] == run
    ensures !run.paused && (run.escalated || i + 1 == |a.children|) ==> RoundDone(a, runs + [run])
    ensures !run.paused && !run.escalated ==> InRound(a, m, runs + [run], i + 1, marks', kept)
  {
    OneMoreMarked(a, m, runs, run);
    hide MarksAfterRounds, MarksAtLast, Marked;
  }

  lemma LastMarked(a: Shell, m: Marks, runs: seq<ChildRun>)
    requires runs != []
    ensures MarksAfterRounds(a, m, runs) ==
            if EndsRound(|a.children|, runs[|runs| - 1]) then Without(MarksAtLast(a, m, runs), set c <- a.children)
            else MarksAtLast(a, m, runs)
  {
  }

  /** All that holds midway through a round that began after the runs `before`. */
  ghost predicate Midway(a: Shell, max: Option<nat>, w: World, m: Marks, before: seq<ChildRun>, s: Snapshot,
                         times: nat, i: nat, resuming: bool, runs: seq<ChildRun>, log: TurnLog, kept: bool)
  {
    OnTheWay(a, max, w, s, times, i, resuming, runs, log) && InRound(a, m, runs, i, s.marks, kept) &&
    (runs == before || (|before| < |runs| <= |w.script|)) && (i >= |a.children| ==> RoundDone(a, runs) && runs != before)
  }

  lemma BeginsMidway(a: Shell, max: Option<nat>, w: World, m: Marks, before: seq<ChildRun>, s: Snapshot,
                     times: nat, start: nat, resuming: bool, log: TurnLog, kept: bool)
    requires start < |a.children| && log == RunFrom(a, max, w, s, times, start, resuming, before)
    requires kept == (s.marks == MarksAfterRounds(a, m, before))
    ensures Midway(a, max, w, m, before, s, times, start, resuming, before, log, kept)
  {
    hide RunFrom, MarksAfterRounds;
  }

  /** One more child run: it ends the turn, ends the round, or goes on midway. */
  lemma StaysMidway(a: Shell, max: Option<nat>, w: World, m: Marks, before: seq<ChildRun>, s: Snapshot,
                    times: nat, i: nat, resuming: bool, runs: seq<ChildRun>, log: TurnLog, kept: bool, step: Step)
    requires i < |a.children| && MayLoop(max, times) && !log.Unfinished?
    requires Midway(a, max, w, m, before, s, times, i, resuming, runs, log, kept)
    requires step == StepChild(a, w, s, times, i, s.resumable && !resuming, |runs|)
    ensures !step.Hung? && |runs| < |w.script| && (step.Broke? ==> log == Lost)
    ensures step.Stepped? ==>
              var run, after, runs' := step.run, step.after, runs + [step.run];
              |before| < |runs'| <= |w.script| && runs'[|runs'| - 1] == run &&
              (kept ==> after.marks == MarksAtLast(a, m, runs')) &&
              if run.paused then log == Log(runs', false)
              else if run.escalated then
                RoundDone(a, runs') && log == if times + 1 == U32_LIMIT then Lost else Log(runs', true)
              else Midway(a, max, w, m, before, after, times, i + 1, false, runs', log, kept)
  {
    StaysOnTheWay(a, max, w, s, times, i, resuming, runs, log, step);
    StepMarked(a, w, s, times, i, s.resumable && !resuming, |runs|);
    if step.Stepped? {
      StaysInRound(a, m, runs, i, s.marks, kept, step.run, step.after.marks);
    }
    hide RunFrom, StepChild, MarksAtLast, MarksAfterRounds, Marked, InRound, OnTheWay, RoundDone, MayLoop;
  }

  lemma EndsMidway(a: Shell, max: Option<nat>, w: World, m: Marks, before: seq<ChildRun>, s: Snapshot,
                   times: nat, resuming: bool, runs: seq<ChildRun>, log: TurnLog, kept: bool)
    requires Midway(a, max, w, m, before, s, times, |a.children|, resuming, runs, log, kept)
    ensures |before| < |runs| <= |w.script| && RoundDone(a, runs) && !runs[|runs| - 1].paused
    ensures kept ==> s.marks == MarksAtLast(a, m, runs)
    ensures log == if times + 1 == U32_LIMIT then Lost else RunFrom(a, max, w, EndRound(a, s), times + 1, 0, false, runs)
  {
    hide RunFrom, MarksAtLast;
  }

  /**
   * Once a round has been completed, the children have no marks left; without that a turn leaves them
   * alone, as it always does with all other agents.
   */
  lemma {:induction false} ChildrenAreReset(a: Shell, m: Marks, runs: seq<ChildRun>, name: string)
    requires name != a.name && a.name !in a.children
    ensures StandingOf(MarksAfterRounds(a, m, runs), name) ==
            if name in a.children && exists k :: 0 <= k < |runs| && EndsRound(|a.children|, runs[k]) then Untracked
            else StandingOf(m, name)
  {
    if runs != [] {
      var last := |runs| - 1;
      ChildrenAreReset(a, m, runs[..last], name);
      hide EndsRound, Encode;
      if k :| 0 <= k < |runs| && EndsRound(|a.children|, runs[k]) {
        assert k < last ==> runs[..last][k] == runs[k];
      }
      if k :| 0 <= k < last && EndsRound(|a.children|, runs[..last][k]) {
        assert runs[k] == runs[..last][k];
      }
    }
  }

  // ----- The agent's own loop -----

  /** One child of a round, which goes on unless it fails, pauses or escalates. */
  method RunNext(a: Shell, ghost max: Option<nat>, ctx: InvocationContext, w: World, times: nat, i: nat, resuming: bool,
                 events: seq<Event>, count: nat, ghost s0: Snapshot, ghost before: seq<ChildRun>,
                 ghost runs: seq<ChildRun>, ghost log: TurnLog, ghost kept: bool)
    returns (r: Result<seq<Event>, ()>, escalated: bool, paused: bool, ghost runs': seq<ChildRun>)
    requires i < |a.children| && MayLoop(max, times) && !log.Unfinished? && count == |runs|
    requires Midway(a, max, w, s0.marks, before, ctx.View(), times, i, resuming, runs, log, kept)
    requires Recorded(a, s0, runs, events, ctx.View())
    modifies ctx`sessionState, ctx`agentStates, ctx`endOfAgents
    ensures r.Err? ==> log == Lost
    ensures r.Ok? ==>
              |runs'| == count + 1 && |before| < |runs'| <= |w.script| && Recorded(a, s0, runs', r.value, ctx.View()) &&
              runs'[count].paused == paused && (kept ==> ctx.TrackedMarks() == MarksAtLast(a, s0.marks, runs')) &&
              if paused then log == Log(runs', false)
              else if escalated then
                RoundDone(a, runs') && log == if times + 1 == U32_LIMIT then Lost else Log(runs', true)
              else Midway(a, max, w, s0.marks, before, ctx.View(), times, i + 1, false, runs', log, kept)
  {
    ghost var s := ctx.View();
    assert s.resumable == ctx.resumable && s.marks == ctx.TrackedMarks();
    hide *;
    var announced := ctx.resumable && !resuming;
    ghost var step := StepChild(a, w, s, times, i, announced, count);
    StaysMidway(a, max, w, s0.marks, before, s, times, i, resuming, runs, log, kept, step);
    r, escalated, paused := RunChild(a, ctx, w.script[count], times, i, announced, events, w, s0, runs);
    runs' := runs;
    if r.Ok? {
      runs' := runs + [step.run];
      assert ctx.View() == step.after;
      MarksOf(ctx);
    }
  }

  lemma MarksOf(ctx: InvocationContext)
    ensures ctx.View().marks == ctx.TrackedMarks()
  {
  }

  /** The inner loop: the children from `start` on, up to the first pause or escalation. */
  method RunRound(a: Shell, ghost max: Option<nat>, ctx: InvocationContext, w: World, times: nat, start: nat,
                  resumed: bool, events: seq<Event>, started: nat, ghost s0: Snapshot, ghost before: seq<ChildRun>)
    returns (r: Result<seq<Event>, ()>, shouldExit: bool, paused: bool, count: nat, ghost runs: seq<ChildRun>)
    requires start < |a.children| && MayLoop(max, times) && |before| == started
    requires !RunFrom(a, max, w, ctx.View(), times, start, resumed, before).Unfinished?
    requires Recorded(a, s0, before, events, ctx.View())
    modifies ctx`sessionState, ctx`agentStates, ctx`endOfAgents
    ensures var log := RunFrom(a, max, w, old(ctx.View()), times, start, resumed, before);
            if r.Err? then log == Lost
            else if paused then log == Log(runs, false)
            else if times + 1 == U32_LIMIT then log == Lost
            else if shouldExit then log == Log(runs, true)
            else log == RunFrom(a, max, w, EndRound(a, ctx.View()), times + 1, 0, false, runs)
    ensures r.Ok? ==> count == |runs| && |before| < |runs| <= |w.script| && Recorded(a, s0, runs, r.value, ctx.View())
    ensures r.Ok? ==> paused == runs[|runs| - 1].paused && (!paused ==> RoundDone(a, runs))
    ensures r.Ok? && old(ctx.TrackedMarks()) == MarksAfterRounds(a, s0.marks, before) ==>
              ctx.TrackedMarks() == MarksAtLast(a, s0.marks, runs)
  {
    ghost var s := ctx.View();
    r, shouldExit, paused, count, runs := Ok(events), false, false, started, before;
    var resuming := resumed;
    ghost var log := RunFrom(a, max, w, s, times, start, resumed, before);
    ghost var kept := s.marks == MarksAfterRounds(a, s0.marks, before);
    assert s.marks == ctx.TrackedMarks();
    hide *;
    BeginsMidway(a, max, w, s0.marks, before, s, times, start, resuming, log, kept);
    for i := start to |a.children|
      invariant count == |runs| && !shouldExit && !paused && r.Ok?
      invariant Recorded(a, s0, runs, r.value, ctx.View())
      invariant Midway(a, max, w, s0.marks, before, ctx.View(), times, i, resuming, runs, log, kept)
    {
      r, shouldExit, paused, runs :=
        RunNext(a, max, ctx, w, times, i, resuming, r.value, count, s0, before, runs, log, kept);
      if r.Err? {
        return;
      }
      count, resuming := count + 1, false;
      if shouldExit || paused {
        return;
      }
    }
    EndsMidway(a, max, w, s0.marks, before, ctx.View(), times, resuming, runs, log, kept);
    MarksOf(ctx);
  }

  /**
   * `LoopAgent::run_async_impl`, on leaf children none of which bears the agent's own name: it
   * returns exactly the transcript of the turn it plays, provided the turn ever ends.
   */
  method RunAsyncImpl(a: Shell, max: Option<nat>, ctx: InvocationContext, w: World)
    returns (r: Result<seq<Event>, ()>)
    requires a.kind.Loop? && ctx.agent == Some(AgentOf(a)) && a.name !in a.children
    requires max.Some? ==> max.value < U32_LIMIT
    requires !Turn(a, max, w, ctx.View()).Unfinished?
    modifies ctx`sessionState, ctx`agentStates, ctx`endOfAgents
    ensures r == Returned(a, old(ctx.View()), w, Turn(a, max, w, old(ctx.View())))
    ensures r.Ok? ==> ctx.sessionState == ApplyDeltas(old(ctx.sessionState), r.value)
    ensures var log := Turn(a, max, w, old(ctx.View()));
            r.Ok? ==>
              ctx.TrackedMarks() ==
              MarksAtEnd(a, MarksAfterRounds(a, old(ctx.TrackedMarks()), log.runs), log.ended && ctx.resumable)
  {
    ghost var s0 := ctx.View();
    if a.children == [] {
      RecordedAll(a, w, s0, [], [], s0, false);
      return Ok([]);
    }
    var paused;
    ghost var runs;
    r, paused, runs := RunRounds(a, max, ctx, w);
    if r.Err? {
      return Err(());
    }
    RecordedAll(a, w, s0, runs, r.value, ctx.View(), !paused);
    if !paused && ctx.resumable {
      ctx.SetAgentState(a.name, None, true);
      r := Ok(r.value + [EndMarker(a, ctx.View(), w.end)]);
    }
  }

  method FinishRound(a: Shell, ctx: InvocationContext)
    requires ctx.agent == Some(AgentOf(a)) && a.name !in a.children
    modifies ctx`agentStates, ctx`endOfAgents
    ensures ctx.View() == EndRound(a, old(ctx.View()))
  {
    ShellVisits(a);
    ctx.ResetSubAgentStates(a.name, 2);
  }

  /** The outer loop: rounds until the bound, an escalation or a pause. */
  method RunRounds(a: Shell, max: Option<nat>, ctx: InvocationContext, w: World)
    returns (r: Result<seq<Event>, ()>, paused: bool, ghost runs: seq<ChildRun>)
    requires a.kind.Loop? && a.children != [] && ctx.agent == Some(AgentOf(a)) && a.name !in a.children
    requires max.Some? ==> max.value < U32_LIMIT
    requires !Turn(a, max, w, ctx.View()).Unfinished?
    modifies ctx`sessionState, ctx`agentStates, ctx`endOfAgents
    ensures Turn(a, max, w, old(ctx.View())) == if r.Err? then Lost else Log(runs, !paused)
    ensures r.Ok? ==> Recorded(a, old(ctx.View()), runs, r.value, ctx.View())
    ensures r.Ok? ==> ctx.TrackedMarks() == MarksAfterRounds(a, old(ctx.TrackedMarks()), runs)
  {
    ghost var s0 := ctx.View();
    ghost var log := Turn(a, max, w, s0);
    var state := Tracked(a, ctx.agentStates);
    var resuming := state.Some?;
    var (times, start) := Start(a, state);
    var shouldExit, started := false, 0;
    r, paused, runs := Ok([]), false, [];
    while MayLoop(max, times) && !(shouldExit || paused)
      invariant r.Ok? && started == |runs| <= |w.script| && start < |a.children|
      invariant Recorded(a, s0, runs, r.value, ctx.View())
      invariant ctx.TrackedMarks() == MarksAfterRounds(a, s0.marks, runs)
      invariant if paused then log == Log(runs, false)
                else if shouldExit then log == Log(runs, true)
                else log == RunFrom(a, max, w, ctx.View(), times, start, resuming, runs)
      decreases |w.script| - |runs|
    {
      r, shouldExit, paused, started, runs :=
        RunRound(a, max, ctx, w, times, start, resuming, r.value, started, s0, runs);
      if r.Err? {
        return;
      }
      resuming := false;
      LastMarked(a, s0.marks, runs);
      if !paused {
        start := 0;
        if times + 1 == U32_LIMIT {
          return Err(()), false, [];
        }
        times := times + 1;
        FinishRound(a, ctx);
      }
    }
  }

  // ----- Which children a turn runs -----

  /** Position `rank` is before the bound of `max` rounds over `n` children. */
  predicate BeforeBound(n: nat, max: Option<nat>, rank: nat) {
    max.Some? ==> rank < max.value * n
  }

  /** The run is the one of this position, below the bound. */
  predicate InPlace(n: nat, max: Option<nat>, rank: nat, run: ChildRun) {
    run.child < n && run.times * n + run.child == rank && BeforeBound(n, max, rank)
  }

  /** Counting the round that ends at position `rank` passes 32 bits. */
  predicate LastCount(n: nat, rank: nat)
    requires n > 0
  {
    rank / n + 1 == U32_LIMIT
  }

  /**
   * The turn of a loop over `n` children from position `first` on, counted over all rounds: it runs one
   * position after the other, below the bound, until one pauses or escalates or the bound is met, and it
   * is without end otherwise.  It is lost at the first run that fails, or if it counts a round past 32
   * bits, and unfinished if a run never comes back.
   */
  ghost predicate RunsInRounds(n: nat, max: Option<nat>, w: World, s: Snapshot, first: nat, resuming: bool, log: TurnLog)
    requires n > 0
  {
    match log
    case Log(runs, ended) =>
      Plays(w, s, resuming, runs) &&
      (forall k :: 0 <= k < |runs| ==> InPlace(n, max, first + k, runs[k])) &&
      (forall k :: 0 <= k < |runs| - 1 ==> !runs[k].paused && !runs[k].escalated) &&
      (ended <==> runs == [] || !runs[|runs| - 1].paused) &&
      (ended && (runs == [] || !runs[|runs| - 1].escalated) ==> !BeforeBound(n, max, first + |runs|))
    case Lost =>
      exists k :: 0 <= k < |w.script| && AllGoOn(w, s, k, true) && BeforeBound(n, max, first + k) &&
        LostAt(n, w, s, first, k)
    case Unfinished => AllGoOn(w, s, |w.script|, true) && BeforeBound(n, max, first + |w.script|)
  }

  /** The `k`-th run fails, or ends the round that cannot be counted. */
  ghost predicate LostAt(n: nat, w: World, s: Snapshot, first: nat, k: nat)
    requires n > 0 && k < |w.script|
  {
    match w.script[k].outcome
    case Failed => true
    case Produced(events) =>
      LastCount(n, first + k) && !AnyPauses(s.history, events) && (AnyEscalates(events) || (first + k + 1) % n == 0)
  }

  lemma PositionOf(n: nat, times: nat, i: nat)
    requires i < n
    ensures (times * n + i) / n == times && ((times * n + i + 1) % n == 0 <==> i + 1 == n)
    ensures forall m: nat :: times < m <==> times * n + i < m * n
  {
    DivMod(n, times, i);
    if i + 1 == n {
      assert times * n + i + 1 == (times + 1) * n;
      DivMod(n, times + 1, 0);
    } else {
      DivMod(n, times, i + 1);
    }
    forall m: nat ensures times < m <==> times * n + i < m * n {
      if times < m {
        NextMultiple(n, times, m);
      } else if m < times {
        NextMultiple(n, m, times);
      }
    }
  }

  lemma DivMod(n: nat, q: nat, r: nat)
    requires r < n
    ensures (q * n + r) / n == q && (q * n + r) % n == r
  {
    var x := q * n + r;
    assert x == x / n * n + x % n;
    if x / n < q {
      NextMultiple(n, x / n, q);
    } else if q < x / n {
      NextMultiple(n, q, x / n);
    }
  }

  /** The runs so far, after each of which the turn went on. */
  ghost predicate WentOn(n: nat, max: Option<nat>, w: World, s: Snapshot, first: nat, resuming: bool, runs: seq<ChildRun>) {
    Plays(w, s, resuming, runs) && AllGoOn(w, s, |runs|, true) &&
    forall k :: 0 <= k < |runs| ==> InPlace(n, max, first + k, runs[k]) && !runs[k].paused && !runs[k].escalated
  }

  /** The next run, at its position below the bound. */
  ghost predicate NextRun(n: nat, max: Option<nat>, w: World, s: Snapshot, first: nat, resuming: bool,
                          runs: seq<ChildRun>, run: ChildRun) {
    Plays(w, s, resuming, runs + [run]) && PlaysAt(w, s, resuming, run, |runs|) && InPlace(n, max, first + |runs|, run)
  }

  lemma OneMoreGoesOn(w: World, s: Snapshot, resuming: bool, runs: seq<ChildRun>, run: ChildRun)
    requires AllGoOn(w, s, |runs|, true) && PlaysAt(w, s, resuming, run, |runs|) && !run.paused && !run.escalated
    ensures AllGoOn(w, s, |runs + [run]|, true)
  {
    assert GoesOn(w, s, |runs|, true);
    hide GoesOn, PlaysAt;
    forall j | 0 <= j < |runs + [run]| ensures GoesOn(w, s, j, true) {
    }
  }

  lemma GoesFurther(n: nat, max: Option<nat>, w: World, s: Snapshot, first: nat, resuming: bool,
                    runs: seq<ChildRun>, run: ChildRun)
    requires WentOn(n, max, w, s, first, resuming, runs) && NextRun(n, max, w, s, first, resuming, runs, run)
    requires !run.paused && !run.escalated
    ensures WentOn(n, max, w, s, first, resuming, runs + [run])
  {
    OneMoreGoesOn(w, s, resuming, runs, run);
    hide InPlace, PlaysAt, Plays, AllGoOn;
    var all := runs + [run];
    forall k | 0 <= k < |all| ensures InPlace(n, max, first + k, all[k]) && !all[k].paused && !all[k].escalated {
      assert all[k] == if k < |runs| then runs[k] else run;
    }
  }

  lemma StopsAfter(n: nat, max: Option<nat>, w: World, s: Snapshot, first: nat, resuming: bool,
                   runs: seq<ChildRun>, run: ChildRun)
    requires n > 0 && WentOn(n, max, w, s, first, resuming, runs) && NextRun(n, max, w, s, first, resuming, runs, run)
    requires run.paused || run.escalated
    ensures RunsInRounds(n, max, w, s, first, resuming, Log(runs + [run], !run.paused))
  {
    hide InPlace, PlaysAt, Plays, AllGoOn;
    var all := runs + [run];
    forall k | 0 <= k < |all| ensures InPlace(n, max, first + k, all[k]) && all[k] == if k < |runs| then runs[k] else run {
    }
  }

  lemma StopsAtBound(n: nat, max: Option<nat>, w: World, s: Snapshot, first: nat, resuming: bool, runs: seq<ChildRun>)
    requires n > 0 && WentOn(n, max, w, s, first, resuming, runs) && !BeforeBound(n, max, first + |runs|)
    ensures RunsInRounds(n, max, w, s, first, resuming, Log(runs, true))
  {
    hide InPlace, BeforeBound, PlaysAt, Plays, AllGoOn;
  }

  lemma BreaksOff(n: nat, max: Option<nat>, w: World, s: Snapshot, first: nat, resuming: bool, runs: seq<ChildRun>)
    requires n > 0 && WentOn(n, max, w, s, first, resuming, runs) && BeforeBound(n, max, first + |runs|)
    ensures |runs| == |w.script| ==> RunsInRounds(n, max, w, s, first, resuming, Unfinished)
    ensures |runs| < |w.script| && LostAt(n, w, s, first, |runs|) ==> RunsInRounds(n, max, w, s, first, resuming, Lost)
  {
    hide Rank, BeforeBound, PlaysAt, Plays, GoesOn, LostAt;
  }

  /** What the step at position `(times, i)` adds. */
  lemma StepIsNext(a: Shell, max: Option<nat>, w: World, s0: Snapshot, first: nat, resumed: bool,
                   s: Snapshot, times: nat, i: nat, announced: bool, runs: seq<ChildRun>)
    requires i < |a.children| && times * |a.children| + i == first + |runs| && MayLoop(max, times)
    requires SameOutside(s0, s) && announced == (s0.resumable && !(resumed && runs == []))
    requires WentOn(|a.children|, max, w, s0, first, resumed, runs)
    ensures BeforeBound(|a.children|, max, first + |runs|)
    ensures var step := StepChild(a, w, s, times, i, announced, |runs|);
            match step
            case Hung => |runs| == |w.script|
            case Broke => |runs| < |w.script| && LostAt(|a.children|, w, s0, first, |runs|)
            case Stepped(run, after) =>
              |runs| < |w.script| && SameOutside(s0, after) &&
              NextRun(|a.children|, max, w, s0, first, resumed, runs, run) &&
              (!run.paused && times + 1 == U32_LIMIT && (run.escalated || i + 1 == |a.children|) ==>
                 LostAt(|a.children|, w, s0, first, |runs|))
  {
    PositionOf(|a.children|, times, i);
    StepPlays(a, w, s0, s, times, i, announced, resumed, runs);
    assert |runs| > 0 ==> PlaysAt(w, s0, resumed, runs[|runs| - 1], |runs| - 1);
    var step := StepChild(a, w, s, times, i, announced, |runs|);
    if step.Stepped? {
      assert (runs + [step.run])[|runs|] == step.run;
    }
    hide AnyPauses, AnyEscalates, ApplyDeltas, Encode;
  }

  lemma {:induction false} RunsInRoundsFrom(a: Shell, max: Option<nat>, w: World, s0: Snapshot, first: nat, resumed: bool,
                                            s: Snapshot, times: nat, i: nat, resuming: bool, runs: seq<ChildRun>)
    requires i < |a.children| && times * |a.children| + i == first + |runs|
    requires SameOutside(s0, s) && resuming == (resumed && runs == [])
    requires WentOn(|a.children|, max, w, s0, first, resumed, runs)
    ensures RunsInRounds(|a.children|, max, w, s0, first, resumed, RunFrom(a, max, w, s, times, i, resuming, runs))
    decreases |w.script| - |runs|
  {
    var n := |a.children|;
    hide WentOn, NextRun, BeforeBound, LostAt, RunsInRounds, Without, StepChild;
    if !MayLoop(max, times) {
      AtTheBound(n, max, first + |runs|, times, i);
      StopsAtBound(n, max, w, s0, first, resumed, runs);
    } else {
      var announced := s.resumable && !resuming;
      var step := StepChild(a, w, s, times, i, announced, |runs|);
      RunFromUnfolds(a, max, w, s, times, i, resuming, runs, step);
      StepIsNext(a, max, w, s0, first, resumed, s, times, i, announced, runs);
      BreaksOff(n, max, w, s0, first, resumed, runs);
      hide RunFrom;
      if step.Stepped? {
        if step.run.paused || step.run.escalated {
          StopsAfter(n, max, w, s0, first, resumed, runs, step.run);
        } else {
          GoesFurther(n, max, w, s0, first, resumed, runs, step.run);
          if i + 1 < n {
            RunsInRoundsFrom(a, max, w, s0, first, resumed, step.after, times, i + 1, false, runs + [step.run]);
          } else if times + 1 != U32_LIMIT {
            assert (times + 1) * n + 0 == times * n + n;
            RunsInRoundsFrom(a, max, w, s0, first, resumed, EndRound(a, step.after), times + 1, 0, false, runs + [step.run]);
          }
        }
      }
    }
  }

  lemma AtTheBound(n: nat, max: Option<nat>, rank: nat, times: nat, i: nat)
    requires i < n && rank == times * n + i && !MayLoop(max, times)
    ensures !BeforeBound(n, max, rank)
  {
    PositionOf(n, times, i);
  }

  /** The position a turn starts at, counted over all rounds. */
  function FirstRank(a: Shell, s: Snapshot): nat {
    var (times, i) := Start(a, Tracked(a, s.marks.states));
    times * |a.children| + i
  }

  /** Every turn runs position after position from its start, in a resumable context or not. */
  lemma TurnRunsInRounds(a: Shell, max: Option<nat>, w: World, s: Snapshot)
    requires a.kind.Loop?
    ensures a.children == [] ==> Turn(a, max, w, s) == Log([], false)
    ensures a.children != [] ==>
              RunsInRounds(|a.children|, max, w, s, FirstRank(a, s), a.name in s.marks.states, Turn(a, max, w, s))
  {
    if a.children != [] {
      var state := Tracked(a, s.marks.states);
      var (times, i) := Start(a, state);
      RunsInRoundsFrom(a, max, w, s, FirstRank(a, s), state.Some?, s, times, i, state.Some?, []);
    }
  }

  lemma NotLost(n: nat, m: nat, w: World, s: Snapshot, k: nat)
    requires n > 0 && m < U32_LIMIT && k < m * n && k < |w.script| && AllGoOn(w, s, m * n, true)
    ensures !LostAt(n, w, s, 0, k)
  {
    assert GoesOn(w, s, k, true);
    QuotientBelow(n, k, m);
  }

  lemma NotStopped(m: nat, w: World, s: Snapshot, runs: seq<ChildRun>)
    requires runs != [] && |runs| <= m && Plays(w, s, false, runs) && AllGoOn(w, s, m, true)
    ensures !runs[|runs| - 1].paused && !runs[|runs| - 1].escalated
  {
    var last := |runs| - 1;
    assert PlaysAt(w, s, false, runs[last], last) && GoesOn(w, s, last, true);
  }

  lemma SmoothRuns(n: nat, m: nat, w: World, s: Snapshot, log: TurnLog)
    requires n > 0 && m < U32_LIMIT && RunsInRounds(n, Some(m), w, s, 0, false, log)
    requires m * n <= |w.script| && AllGoOn(w, s, m * n, true)
    ensures log.Log? && log.ended && |log.runs| == m * n
  {
    hide AllGoOn, LostAt, Plays;
    match log
    case Unfinished =>
    case Lost =>
      var k :| 0 <= k < |w.script| && AllGoOn(w, s, k, true) && BeforeBound(n, Some(m), k) && LostAt(n, w, s, 0, k);
      NotLost(n, m, w, s, k);
    case Log(runs, ended) =>
      if runs != [] {
        assert BeforeBound(n, Some(m), |runs| - 1);
        NotStopped(m * n, w, s, runs);
      }
  }

  lemma UnboundedRuns(n: nat, w: World, s: Snapshot, first: nat, resuming: bool, log: TurnLog)
    requires n > 0 && RunsInRounds(n, None, w, s, first, resuming, log) && log.Log? && log.ended
    ensures log.runs != [] && log.runs[|log.runs| - 1].escalated
  {
    hide Plays;
    assert BeforeBound(n, None, first + |log.runs|);
  }

  /**
   * A fresh turn with a bound of `m` rounds whose children neither fail nor pause nor escalate makes
   * exactly `m * n` runs; without a bound no turn ends unless its last run escalates.
   */
  lemma SmoothTurnRuns(a: Shell, max: Option<nat>, w: World, s: Snapshot)
    requires a.kind.Loop? && a.children != []
    ensures var log, n := Turn(a, max, w, s), |a.children|;
            (max.Some? && max.value < U32_LIMIT && a.name !in s.marks.states &&
             max.value * n <= |w.script| && AllGoOn(w, s, max.value * n, true) ==>
               log.Log? && log.ended && |log.runs| == max.value * n) &&
            (max.None? && log.Log? && log.ended ==> log.runs != [] && log.runs[|log.runs| - 1].escalated)
  {
    TurnRunsInRounds(a, max, w, s);
    assert a.name !in s.marks.states ==> FirstRank(a, s) == 0;
    var log, n := Turn(a, max, w, s), |a.children|;
    hide *;
    if max.Some? && max.value < U32_LIMIT && a.name !in s.marks.states &&
       max.value * n <= |w.script| && AllGoOn(w, s, max.value * n, true)
    {
      SmoothRuns(n, max.value, w, s, log);
    }
    if max.None? && log.Log? && log.ended {
      UnboundedRuns(n, w, s, FirstRank(a, s), a.name in s.marks.states, log);
    }
  }

  lemma QuotientBelow(n: nat, k: nat, m: nat)
    requires n > 0 && k < m * n
    ensures k / n < m
  {
    assert k == k / n * n + k % n;
    if m < k / n {
      NextMultiple(n, m, k / n);
    }
  }

  // ----- What a turn does -----

  /** Every run stands within the bound, and none but the last may have asked to stop. */
  ghost predicate WithinBounds(max: Option<nat>, runs: seq<ChildRun>) {
    forall k :: 0 <= k < |runs| ==>
      MayLoop(max, runs[k].times) && runs[k].times < U32_LIMIT && (k < |runs| - 1 ==> !runs[k].escalated)
  }

  /** An ended turn met the bound or was stopped by its last child; a paused one did neither. */
  ghost predicate EndsRightly(n: nat, max: Option<nat>, start: (nat, nat), log: TurnLog)
    requires log.Log?
  {
    if log.ended then
      !MayLoop(max, After(n, start, log.runs).0) ||
      (log.runs != [] && log.runs[|log.runs| - 1].escalated)
    else
      log.runs != [] && log.runs[|log.runs| - 1].paused
  }

  ghost predicate TurnContract(a: Shell, max: Option<nat>, m: Marks, start: (nat, nat), log: TurnLog) {
    log.Log? ==>
      Stretch(a, m, start, log) && WithinBounds(max, log.runs) && EndsRightly(|a.children|, max, start, log)
  }

  /** One more run within the bounds, and what it means for the turn to end with it. */
  lemma OneMore(a: Shell, max: Option<nat>, w: World, m: Marks, start: (nat, nat), s: Snapshot,
                runs: seq<ChildRun>, at: (nat, nat), resuming: bool)
    requires at.1 < |a.children| && LeafDiscipline(a, w) && MayLoop(max, at.0) && at.0 < U32_LIMIT
    requires Underway(a, m, start, runs, at, resuming) && WithinBounds(max, runs)
    requires runs != [] ==> !runs[|runs| - 1].escalated
    requires StepChild(a, w, s, at.0, at.1, !resuming, |runs|).Stepped?
    ensures var run := StepChild(a, w, s, at.0, at.1, !resuming, |runs|).run;
            WithinBounds(max, runs + [run]) &&
            (run.paused ==> TurnContract(a, max, m, start, Log(runs + [run], false))) &&
            (!run.paused && run.escalated ==> TurnContract(a, max, m, start, Log(runs + [run], true))) &&
            (!run.paused ==> Underway(a, m, start, runs + [run], Successor(|a.children|, at.0, at.1), false))
  {
    UnderwayStep(a, w, m, start, s, runs, at, resuming);
  }

  /** A turn of a resumable agent runs position after position, up to a pause, an escalation or the bound. */
  lemma NoMore(a: Shell, max: Option<nat>, w: World, m: Marks, start: (nat, nat),
               s: Snapshot, times: nat, i: nat, resuming: bool, runs: seq<ChildRun>)
    requires i < |a.children| && !MayLoop(max, times)
    requires Underway(a, m, start, runs, (times, i), resuming) && WithinBounds(max, runs)
    ensures TurnContract(a, max, m, start, RunFrom(a, max, w, s, times, i, resuming, runs))
  {
  }

  lemma {:induction false} StretchFrom(a: Shell, max: Option<nat>, w: World, m: Marks, start: (nat, nat),
                                       s: Snapshot, times: nat, i: nat, resuming: bool, runs: seq<ChildRun>)
    requires i < |a.children| && s.resumable && LeafDiscipline(a, w) && times < U32_LIMIT
    requires Underway(a, m, start, runs, (times, i), resuming) && WithinBounds(max, runs)
    requires runs != [] ==> !runs[|runs| - 1].escalated
    ensures TurnContract(a, max, m, start, RunFrom(a, max, w, s, times, i, resuming, runs))
    decreases |w.script| - |runs|
  {
    hide Underway, WithinBounds, Stretch, EndsRightly, LeafDiscipline, Without;
    if !MayLoop(max, times) {
      NoMore(a, max, w, m, start, s, times, i, resuming, runs);
    } else {
      var step := StepChild(a, w, s, times, i, !resuming, |runs|);
      RunFromUnfolds(a, max, w, s, times, i, resuming, runs, step);
      hide RunFrom;
      if step.Stepped? {
        OneMore(a, max, w, m, start, s, runs, (times, i), resuming);
        if !step.run.paused && !step.run.escalated {
          if i + 1 < |a.children| {
            StretchFrom(a, max, w, m, start, step.after, times, i + 1, false, runs + [step.run]);
          } else if times + 1 < U32_LIMIT {
            StretchFrom(a, max, w, m, start, EndRound(a, step.after), times + 1, 0, false, runs + [step.run]);
          }
        }
      }
    }
  }

  /** What a turn does, whatever its children do, when it is opened at a known position or afresh. */
  lemma TurnStretch(a: Shell, max: Option<nat>, w: World, s: Snapshot, start: (nat, nat))
    requires a.kind.Loop? && Distinct(a) && s.resumable && LeafDiscipline(a, w)
    requires StartsAt(a, StandingOf(s.marks, a.name), start)
    ensures TurnContract(a, max, s.marks, start, Turn(a, max, w, s))
  {
    var state := Tracked(a, s.marks.states);
    if state.Some? {
      RestoresPosition(a, start.0, start.1);
    }
    StretchFrom(a, max, w, s.marks, start, s, start.0, start.1, state.Some?, []);
  }

  /** With a bound of `m` rounds a turn comes back as soon as its children do: `m * n` runs are enough. */
  lemma {:induction false} FinishesFrom(a: Shell, m: nat, w: World, s: Snapshot,
                                        times: nat, i: nat, resuming: bool, runs: seq<ChildRun>)
    requires i < |a.children|
    requires |w.script| - |runs| >= m * |a.children| - (times * |a.children| + i)
    ensures !RunFrom(a, Some(m), w, s, times, i, resuming, runs).Unfinished?
    decreases |w.script| - |runs|
  {
    if times < m {
      var n := |a.children|;
      NextMultiple(n, times, m);
      assert (times + 1) * n == times * n + n;
      var step := StepChild(a, w, s, times, i, s.resumable && !resuming, |runs|);
      RunFromUnfolds(a, Some(m), w, s, times, i, resuming, runs, step);
      if step.Stepped? && !step.run.paused && !step.run.escalated {
        if i + 1 < n {
          FinishesFrom(a, m, w, step.after, times, i + 1, false, runs + [step.run]);
        } else {
          FinishesFrom(a, m, w, EndRound(a, step.after), times + 1, 0, false, runs + [step.run]);
        }
      }
    }
  }

  lemma {:induction false} RunsBoundedFrom(a: Shell, m: nat, w: World, s: Snapshot,
                                           times: nat, i: nat, resuming: bool, runs: seq<ChildRun>)
    requires i < |a.children| && |runs| <= times * |a.children| + i
    ensures var log := RunFrom(a, Some(m), w, s, times, i, resuming, runs);
            log.Log? ==> |log.runs| <= m * |a.children| || log.runs == runs
    decreases |w.script| - |runs|
  {
    if times < m {
      var n := |a.children|;
      NextMultiple(n, times, m);
      assert (times + 1) * n == times * n + n;
      var step := StepChild(a, w, s, times, i, s.resumable && !resuming, |runs|);
      RunFromUnfolds(a, Some(m), w, s, times, i, resuming, runs, step);
      if step.Stepped? && !step.run.paused && !step.run.escalated {
        if i + 1 < n {
          RunsBoundedFrom(a, m, w, step.after, times, i + 1, false, runs + [step.run]);
        } else {
          RunsBoundedFrom(a, m, w, EndRound(a, step.after), times + 1, 0, false, runs + [step.run]);
        }
      }
    }
  }

  /** A turn of a bounded loop over `n` children makes at most `m * n` runs, whatever state it is opened on. */
  lemma BoundedTurnRuns(a: Shell, m: nat, w: World, s: Snapshot)
    requires a.kind.Loop?
    ensures var log := Turn(a, Some(m), w, s); log.Log? ==> |log.runs| <= m * |a.children|
  {
    if a.children != [] {
      var state := Tracked(a, s.marks.states);
      var (times, i) := Start(a, state);
      RunsBoundedFrom(a, m, w, s, times, i, state.Some?, []);
    }
  }

  /** Every turn of a bounded loop terminates, whatever state it is opened on. */
  lemma BoundedTurnFinishes(a: Shell, m: nat, w: World, s: Snapshot)
    requires a.kind.Loop? && |w.script| >= m * |a.children|
    ensures !Turn(a, Some(m), w, s).Unfinished?
  {
    if a.children != [] {
      var state := Tracked(a, s.marks.states);
      var (times, i) := Start(a, state);
      FinishesFrom(a, m, w, s, times, i, state.Some?, []);
    }
  }
}
