/** What the sequential and the loop agent share: runs of leaf children, and what a turn records. */
module Orchestration {
  import opened Wrappers
  import opened Events
  import opened Contexts
  import opened AgentStates

  /** How the run of a leaf child comes out: an error, or the events it collected. */
  datatype LeafOutcome = Failed | Produced(events: seq<Event>)

  /** One child run as it happens, with the stamp its marker would get. */
  datatype LeafRun = LeafRun(stamp: Stamp, outcome: LeafOutcome)

  /**
   * Everything outside the shell agent's control in one turn: how its child runs come out, in the
   * order they are made, and the stamp of the end marker.  A run beyond the script never comes back.
   */
  datatype World = World(script: seq<LeafRun>, end: Stamp)

  /** A completed child run: where it stood, what it read and what it produced. */
  datatype ChildRun = ChildRun(
    times: nat,
    child: nat,
    announced: bool,
    stamp: Stamp,
    entry: StateMap,
    events: seq<Event>,
    escalated: bool,
    paused: bool)

  /** What one turn leaves behind: an error loses all of it, and a turn may never come back. */
  datatype TurnLog = Lost | Unfinished | Log(runs: seq<ChildRun>, ended: bool)

  function Marker(a: Shell, s: Snapshot, stamp: Stamp): Event {
    NewEvent(stamp, s.invocationId, a.name).(branch := s.branch)
  }

  function StateMarker(a: Shell, s: Snapshot, stamp: Stamp, state: StateMap): Event {
    Marker(a, s, stamp).(actions := NO_ACTIONS.(agentState := Some(state)))
  }

  function EndMarker(a: Shell, s: Snapshot, stamp: Stamp): Event {
    Marker(a, s, stamp).(actions := NO_ACTIONS.(endOfAgent := true))
  }

  /** The events a child run adds to its turn: its marker, when announced, then its own. */
  function RunEvents(a: Shell, s: Snapshot, run: ChildRun): seq<Event> {
    (if run.announced then [StateMarker(a, s, run.stamp, Encode(a, run.times, run.child))] else []) + run.events
  }

  function RunsEvents(a: Shell, s: Snapshot, runs: seq<ChildRun>): seq<Event> {
    if runs == [] then [] else RunsEvents(a, s, runs[..|runs| - 1]) + RunEvents(a, s, runs[|runs| - 1])
  }

  /** The events a turn returns. */
  function Transcript(a: Shell, s: Snapshot, w: World, log: TurnLog): seq<Event>
    requires log.Log?
  {
    RunsEvents(a, s, log.runs) + if log.ended && s.resumable then [EndMarker(a, s, w.end)] else []
  }

  /** What a turn hands back to its caller: its transcript, or an error. */
  function Returned(a: Shell, s: Snapshot, w: World, log: TurnLog): Result<seq<Event>, ()> {
    if log.Log? then Ok(Transcript(a, s, w, log)) else Err(())
  }

  // ----- One child run -----

  /** The context a child runs in: its position is recorded first when it is announced. */
  function Announce(a: Shell, s: Snapshot, times: nat, child: nat, announced: bool): Snapshot {
    if announced then s.(marks := SetMark(s.marks, a.name, Some(Encode(a, times, child)), false)) else s
  }

  datatype Step = Broke | Hung | Stepped(run: ChildRun, after: Snapshot)

  /** The `k`-th child run of a turn, and the context it leaves to the next. */
  function StepChild(a: Shell, w: World, s: Snapshot, times: nat, child: nat, announced: bool, k: nat): Step {
    if k >= |w.script| then Hung
    else
      match w.script[k].outcome
      case Failed => Broke
      case Produced(produced) =>
        Stepped(
          ChildRun(times, child, announced, w.script[k].stamp, s.sessionState, produced,
                   AnyEscalates(produced), AnyPauses(s.history, produced)),
          Announce(a, s, times, child, announced).(sessionState := ApplyDeltas(s.sessionState, produced)))
  }

  /** `events` and the session state of `s` are what the child runs `runs` of a turn opened on `s0` leave. */
  ghost predicate Recorded(a: Shell, s0: Snapshot, runs: seq<ChildRun>, events: seq<Event>, s: Snapshot) {
    s == s0.(sessionState := ApplyDeltas(s0.sessionState, events), marks := s.marks) &&
    events == RunsEvents(a, s0, runs)
  }

  lemma RecordedStep(a: Shell, w: World, s0: Snapshot, runs: seq<ChildRun>, events: seq<Event>, s: Snapshot,
                     times: nat, child: nat, announced: bool)
    requires Recorded(a, s0, runs, events, s)
    ensures var step := StepChild(a, w, s, times, child, announced, |runs|);
            step.Stepped? ==> Recorded(a, s0, runs + [step.run], events + RunEvents(a, s, step.run), step.after)
  {
    var step := StepChild(a, w, s, times, child, announced, |runs|);
    if step.Stepped? {
      assert (runs + [step.run])[..|runs|] == runs;
      var marker := if announced then [StateMarker(a, s, step.run.stamp, Encode(a, times, child))] else [];
      assert announced ==> marker[..0] == [];
      assert ApplyDeltas(s.sessionState, marker) == s.sessionState;
      ApplyDeltasConcat(s.sessionState, marker, step.run.events);
      ApplyDeltasConcat(s0.sessionState, events, marker + step.run.events);
    }
  }

  /**
   * Announces and runs one child after the child runs `runs`, and makes the state deltas of its
   * events visible to whatever runs next.
   */
  method RunChild(a: Shell, ctx: InvocationContext, leaf: LeafRun, times: nat, child: nat, announced: bool,
                  events: seq<Event>, ghost w: World, ghost s0: Snapshot, ghost runs: seq<ChildRun>)
    returns (r: Result<seq<Event>, ()>, escalated: bool, paused: bool)
    requires |runs| < |w.script| && w.script[|runs|] == leaf
    requires Recorded(a, s0, runs, events, ctx.View())
    modifies ctx`sessionState, ctx`agentStates, ctx`endOfAgents
    ensures match StepChild(a, w, old(ctx.View()), times, child, announced, |runs|)
            case Broke => r.Err?
            case Stepped(run, after) =>
              ctx.View() == after && escalated == run.escalated && paused == run.paused &&
              r.Ok? && Recorded(a, s0, runs + [run], r.value, after)
  {
    ghost var s := ctx.View();
    var marker := [];
    if announced {
      ctx.SetAgentState(a.name, Some(Encode(a, times, child)), false);
      marker := [StateMarker(a, ctx.View(), leaf.stamp, ctx.agentStates[a.name])];
    }
    if leaf.outcome.Failed? {
      return Err(()), false, false;
    }
    var state;
    state, escalated, paused := TakeOver(ctx.history, ctx.sessionState, leaf.outcome.events);
    ctx.sessionState := state;
    assert ctx.View() == Announce(a, s, times, child, announced).(sessionState := state);
    RecordedStep(a, w, s0, runs, events, s, times, child, announced);
    r := Ok(events + (marker + leaf.outcome.events));
  }

  /** Takes events over one by one: their state deltas apply, and each may escalate or pause. */
  method TakeOver(history: seq<Event>, state: StateMap, produced: seq<Event>)
    returns (after: StateMap, escalated: bool, paused: bool)
    ensures after == ApplyDeltas(state, produced)
    ensures escalated == AnyEscalates(produced) && paused == AnyPauses(history, produced)
  {
    after, escalated, paused := state, false, false;
    for j := 0 to |produced|
      invariant after == ApplyDeltas(state, produced[..j])
      invariant escalated == AnyEscalates(produced[..j]) && paused == AnyPauses(history, produced[..j])
    {
      var event := produced[j];
      assert produced[..j + 1][..j] == produced[..j];
      after := after + event.actions.stateDelta;
      if event.actions.escalate {
        escalated := true;
      }
      if ShouldPause(history, event) {
        paused := true;
      }
    }
    assert produced[..|produced|] == produced;
  }

  /** What a finished turn returns, and that it leaves the session state its transcript spells out. */
  lemma RecordedAll(a: Shell, w: World, s0: Snapshot, runs: seq<ChildRun>, events: seq<Event>, s: Snapshot, ended: bool)
    requires Recorded(a, s0, runs, events, s)
    ensures Transcript(a, s0, w, Log(runs, ended)) ==
            if ended && s0.resumable then events + [EndMarker(a, s, w.end)] else events
    ensures s.sessionState == ApplyDeltas(s0.sessionState, Transcript(a, s0, w, Log(runs, ended)))
  {
    if ended && s0.resumable {
      assert (events + [EndMarker(a, s, w.end)])[..|events|] == events;
    } else {
      assert events + [] == events;
    }
  }

  // ----- Positions -----

  /** The next position after `(times, child)` among `n` children. */
  function Successor(n: nat, times: nat, child: nat): (nat, nat) {
    if child + 1 < n then (times, child + 1) else (times + 1, 0)
  }

  /** A run that paused is taken up again where it stood; a run that did not hands on to its successor. */
  function Next(n: nat, prev: ChildRun): (nat, nat) {
    if prev.paused then (prev.times, prev.child) else Successor(n, prev.times, prev.child)
  }

  function Spot(run: ChildRun): (nat, nat) {
    (run.times, run.child)
  }

  /** The position after the runs `runs` that started at `start`. */
  function After(n: nat, start: (nat, nat), runs: seq<ChildRun>): (nat, nat) {
    if runs == [] then start else Next(n, runs[|runs| - 1])
  }

  /** The runs start at `start` and each takes up where its predecessor left off. */
  ghost predicate Chain(n: nat, start: (nat, nat), runs: seq<ChildRun>) {
    (|runs| > 0 ==> Spot(runs[0]) == start) &&
    (forall k :: 0 < k < |runs| ==> Spot(runs[k]) == Next(n, runs[k - 1])) &&
    (forall k :: 0 <= k < |runs| ==> runs[k].child < n)
  }

  /** Positions in running order. */
  function Rank(n: nat, run: ChildRun): nat {
    run.times * n + run.child
  }

  /** How many of the runs completed, that is did not pause. */
  function Completed(runs: seq<ChildRun>): nat {
    if runs == [] then 0
    else Completed(runs[..|runs| - 1]) + if runs[|runs| - 1].paused then 0 else 1
  }

  /** In a chain from the origin, a run's rank is the number of runs completed before it. */
  lemma {:induction false} RankCounts(n: nat, runs: seq<ChildRun>, k: nat)
    requires Chain(n, (0, 0), runs) && k < |runs|
    ensures Rank(n, runs[k]) == Completed(runs[..k])
    decreases k
  {
    if k > 0 {
      RankCounts(n, runs, k - 1);
      assert runs[..k][..k - 1] == runs[..k - 1];
      var prev := runs[k - 1];
      if !prev.paused && prev.child + 1 == n {
        assert (prev.times + 1) * n == prev.times * n + n;
      }
    }
  }

  lemma {:induction false} CompletedMonotone(runs: seq<ChildRun>, j: nat, k: nat)
    requires j <= k <= |runs|
    ensures Completed(runs[..j]) <= Completed(runs[..k])
    decreases k
  {
    if j < k {
      assert runs[..k][..k - 1] == runs[..k - 1];
      CompletedMonotone(runs, j, k - 1);
    }
  }

  /** Positions never move backwards, and strictly forwards once a run has completed. */
  lemma RankMonotone(n: nat, runs: seq<ChildRun>, j: nat, k: nat)
    requires Chain(n, (0, 0), runs) && j < k < |runs|
    ensures Rank(n, runs[j]) <= Rank(n, runs[k])
    ensures !runs[j].paused ==> Rank(n, runs[j]) < Rank(n, runs[k])
  {
    RankCounts(n, runs, j);
    RankCounts(n, runs, k);
    CompletedMonotone(runs, j + 1, k);
    assert runs[..j + 1][..j] == runs[..j];
  }

  /** The position after a chain from the origin counts the runs it completed. */
  lemma AfterCounts(n: nat, runs: seq<ChildRun>)
    requires n > 0 && Chain(n, (0, 0), runs)
    ensures After(n, (0, 0), runs).0 * n + After(n, (0, 0), runs).1 == Completed(runs)
  {
    if runs != [] {
      var last := runs[|runs| - 1];
      RankCounts(n, runs, |runs| - 1);
      if !last.paused && last.child + 1 == n {
        assert (last.times + 1) * n == last.times * n + n;
      }
    }
  }

  /** Equal ranks among `n` children are equal positions. */
  lemma RankInjective(n: nat, r: ChildRun, r': ChildRun)
    requires r.child < n && r'.child < n
    requires Rank(n, r) == Rank(n, r')
    ensures Spot(r) == Spot(r')
  {
    if r.times < r'.times {
      NextMultiple(n, r.times, r'.times);
    } else if r'.times < r.times {
      NextMultiple(n, r'.times, r.times);
    }
  }

  lemma NextMultiple(n: nat, x: nat, y: nat)
    requires x < y
    ensures x * n + n <= y * n
  {
    assert y * n == (x + 1) * n + (y - x - 1) * n;
  }

  /** Every rank below the number of completed runs was completed by some run. */
  lemma {:induction false} CompletingRun(n: nat, runs: seq<ChildRun>, rank: nat) returns (k: nat)
    requires Chain(n, (0, 0), runs) && rank < Completed(runs)
    ensures k < |runs| && !runs[k].paused && Rank(n, runs[k]) == rank
    decreases |runs|
  {
    var last := |runs| - 1;
    if rank < Completed(runs[..last]) {
      k := CompletingRun(n, runs[..last], rank);
    } else {
      RankCounts(n, runs, last);
      k := last;
    }
  }

  // ----- What a turn emits -----

  /** A marker as it is filed: by the shell, for the invocation, on the context's branch, with no delta. */
  ghost predicate IsMarker(e: Event, name: string, s: Snapshot, stamp: Stamp) {
    e.author == name && e.path == "" && e.invocationId == s.invocationId && e.branch == s.branch &&
    e.id == stamp.id && e.timestamp == stamp.time && e.partial.None? && e.content.None? &&
    e.actions.stateDelta == map[] && !e.actions.escalate
  }

  /** It records the child and, for a loop, the round. */
  ghost predicate Records(e: Event, a: Shell, run: ChildRun) {
    !e.actions.endOfAgent && e.actions.agentState.Some? &&
    var state := e.actions.agentState.value;
    (run.child < |a.children| ==> Get(state, "current_sub_agent") == Some(Text(a.children[run.child]))) &&
    Get(state, "times_looped") == (if a.kind.Loop? then Some(Int(run.times)) else None)
  }

  lemma MarkerIs(a: Shell, s: Snapshot, run: ChildRun)
    ensures var e := StateMarker(a, s, run.stamp, Encode(a, run.times, run.child));
            IsMarker(e, a.name, s, run.stamp) && Records(e, a, run)
  {
  }

  /**
   * Where each run stands in the transcript of its turn: the events of the runs before it come first,
   * then its marker if it was announced, then its own events as they were produced.
   */
  lemma TranscriptAt(a: Shell, s: Snapshot, w: World, log: TurnLog, k: nat)
    requires log.Log? && k < |log.runs|
    ensures var t, run := Transcript(a, s, w, log), log.runs[k];
            var i, more := |RunsEvents(a, s, log.runs[..k])|, |RunsEvents(a, s, log.runs[..k + 1])|;
            var j := if run.announced then i + 1 else i;
            more == j + |run.events| <= |t| && t[j..more] == run.events &&
            (run.announced ==> IsMarker(t[i], a.name, s, run.stamp) && Records(t[i], a, run))
  {
    var run, before := log.runs[k], RunsEvents(a, s, log.runs[..k]);
    MarkerIs(a, s, run);
    assert log.runs[..k + 1][..k] == log.runs[..k] && log.runs[..k + 1][k] == run;
    var upTo := RunsEvents(a, s, log.runs[..k + 1]);
    assert upTo == before + RunEvents(a, s, run);
    RunsEventsGrow(a, s, log.runs, k + 1);
    hide StateMarker, IsMarker, Records, RunsEvents, Encode;
    assert log.runs[..|log.runs|] == log.runs;
    var t := Transcript(a, s, w, log);
    assert t[..|upTo|] == upTo;
  }

  lemma {:induction false} RunsEventsGrow(a: Shell, s: Snapshot, runs: seq<ChildRun>, k: nat)
    requires k <= |runs|
    ensures RunsEvents(a, s, runs[..k]) <= RunsEvents(a, s, runs)
    decreases |runs|
  {
    if k == |runs| {
      assert runs[..k] == runs;
    } else {
      var init := runs[..|runs| - 1];
      RunsEventsGrow(a, s, init, k);
      assert init[..k] == runs[..k];
    }
  }

  /** A transcript ends with the end marker exactly when the turn ended in a resumable context. */
  lemma TranscriptEndsWith(a: Shell, s: Snapshot, w: World, log: TurnLog)
    requires log.Log?
    ensures var t, n := Transcript(a, s, w, log), |RunsEvents(a, s, log.runs)|;
            if log.ended && s.resumable then
              |t| == n + 1 && IsMarker(t[n], a.name, s, w.end) && t[n].actions.endOfAgent && t[n].actions.agentState.None?
            else |t| == n
  {
  }

  // ----- What a turn leaves in its context -----

  /** The marks after the runs of a turn: the last one announced stands for the shell. */
  function MarksAfter(a: Shell, m: Marks, runs: seq<ChildRun>): Marks {
    if runs == [] then m
    else
      var before, run := MarksAfter(a, m, runs[..|runs| - 1]), runs[|runs| - 1];
      if run.announced then SetMark(before, a.name, Some(Encode(a, run.times, run.child)), false) else before
  }

  lemma MarksAfterOneMore(a: Shell, m: Marks, runs: seq<ChildRun>, run: ChildRun)
    ensures MarksAfter(a, m, runs + [run]) ==
            var before := MarksAfter(a, m, runs);
            if run.announced then SetMark(before, a.name, Some(Encode(a, run.times, run.child)), false) else before
  {
    assert (runs + [run])[..|runs|] == runs;
  }

  function MarksAtEnd(a: Shell, m: Marks, ends: bool): Marks {
    if ends then SetMark(m, a.name, None, true) else m
  }

  // ----- Which runs a turn makes -----

  /**
   * The `k`-th run of a turn opened on `s`: what the script has for it, announced in a resumable context
   * unless the turn resumes with it, paused and escalating as its events are.
   */
  ghost predicate PlaysAt(w: World, s: Snapshot, resuming: bool, run: ChildRun, k: nat) {
    k < |w.script| && w.script[k] == LeafRun(run.stamp, Produced(run.events)) &&
    run.announced == (s.resumable && !(resuming && k == 0)) &&
    run.escalated == AnyEscalates(run.events) && run.paused == AnyPauses(s.history, run.events)
  }

  ghost predicate Plays(w: World, s: Snapshot, resuming: bool, runs: seq<ChildRun>) {
    forall k :: 0 <= k < |runs| ==> PlaysAt(w, s, resuming, runs[k], k)
  }

  /** The `k`-th run comes back with events, and the turn goes on after it. */
  ghost predicate GoesOn(w: World, s: Snapshot, k: nat, stopsAtEscalation: bool) {
    k < |w.script| && w.script[k].outcome.Produced? && !AnyPauses(s.history, w.script[k].outcome.events) &&
    !(stopsAtEscalation && AnyEscalates(w.script[k].outcome.events))
  }

  ghost predicate AllGoOn(w: World, s: Snapshot, k: nat, stopsAtEscalation: bool) {
    forall j :: 0 <= j < k ==> GoesOn(w, s, j, stopsAtEscalation)
  }

  /** The snapshots a turn passes through differ from the one it opened on in their state and marks only. */
  ghost predicate SameOutside(s0: Snapshot, s: Snapshot) {
    s.history == s0.history && s.resumable == s0.resumable
  }

  lemma StepPlays(a: Shell, w: World, s0: Snapshot, s: Snapshot, times: nat, child: nat, announced: bool,
                  resuming: bool, runs: seq<ChildRun>)
    requires Plays(w, s0, resuming, runs) && SameOutside(s0, s)
    requires announced == (s0.resumable && !(resuming && runs == []))
    ensures var step := StepChild(a, w, s, times, child, announced, |runs|);
            step.Stepped? ==>
              Plays(w, s0, resuming, runs + [step.run]) && SameOutside(s0, step.after) &&
              step.run.times == times && step.run.child == child
  {
  }

  // ----- What a turn may assume and what it does -----

  /** No event a leaf child produces is filed under the shell's own name. */
  ghost predicate LeafDiscipline(a: Shell, w: World) {
    forall k :: 0 <= k < |w.script| && w.script[k].outcome.Produced? ==> Elsewhere(a, w.script[k].outcome.events)
  }

  ghost predicate Elsewhere(a: Shell, events: seq<Event>) {
    forall j :: 0 <= j < |events| ==> Key(events[j]) != a.name
  }

  /** Every run's own events are filed elsewhere than under the shell's name. */
  ghost predicate OthersOnly(a: Shell, runs: seq<ChildRun>) {
    forall k :: 0 <= k < |runs| ==> Elsewhere(a, runs[k].events)
  }

  /** Each run was announced, except possibly the first, which then resumes a known position. */
  ghost predicate Announced(a: Shell, m: Marks, runs: seq<ChildRun>) {
    forall k :: 0 <= k < |runs| ==>
      runs[k].announced ||
      (k == 0 && StandingOf(m, a.name) == Running(Encode(a, runs[0].times, runs[0].child)))
  }

  /** The children can be told apart by their names. */
  ghost predicate Distinct(a: Shell) {
    a.children != [] &&
    forall i :: 0 <= i < |a.children| ==> a.children[i] != "" && a.children[i] !in a.children[..i]
  }

  /** Where a turn starts when its context knows `standing` about the agent. */
  ghost predicate StartsAt(a: Shell, standing: Standing, start: (nat, nat)) {
    start.1 < |a.children| && start.0 < U32_LIMIT &&
    if standing.Running? then standing.state == Encode(a, start.0, start.1) else start == (0, 0)
  }

  /** The runs of a turn so far, none of which paused, with position `at` next. */
  ghost predicate Underway(a: Shell, m: Marks, start: (nat, nat), runs: seq<ChildRun>, at: (nat, nat), resuming: bool) {
    Chain(|a.children|, start, runs) && OthersOnly(a, runs) && Announced(a, m, runs) &&
    (forall k :: 0 <= k < |runs| ==> !runs[k].paused) &&
    After(|a.children|, start, runs) == at &&
    (resuming ==> runs == [] && StandingOf(m, a.name) == Running(Encode(a, at.0, at.1)))
  }

  /** The runs of a whole turn: only its last may pause, and the turn goes on later exactly when it does. */
  ghost predicate Stretch(a: Shell, m: Marks, start: (nat, nat), log: TurnLog)
    requires log.Log?
  {
    Chain(|a.children|, start, log.runs) && OthersOnly(a, log.runs) && Announced(a, m, log.runs) &&
    (forall k :: 0 <= k < |log.runs| - 1 ==> !log.runs[k].paused) &&
    log.ended == (log.runs == [] || !log.runs[|log.runs| - 1].paused)
  }

  lemma UnderwayStep(a: Shell, w: World, m: Marks, start: (nat, nat), s: Snapshot,
                     runs: seq<ChildRun>, at: (nat, nat), resuming: bool)
    requires Underway(a, m, start, runs, at, resuming) && LeafDiscipline(a, w) && at.1 < |a.children|
    requires StepChild(a, w, s, at.0, at.1, !resuming, |runs|).Stepped?
    ensures var run := StepChild(a, w, s, at.0, at.1, !resuming, |runs|).run;
            Stretch(a, m, start, Log(runs + [run], !run.paused)) &&
            (!run.paused ==> Underway(a, m, start, runs + [run], Successor(|a.children|, at.0, at.1), false))
  {
  }

  // ----- Replaying a transcript -----

  lemma ReplayInvocationConcat(m: Marks, x: seq<Event>, y: seq<Event>, id: string)
    ensures Replay(m, OfInvocation(x + y, id)) == Replay(Replay(m, OfInvocation(x, id)), OfInvocation(y, id))
  {
    OfInvocationConcat(x, y, id);
    ReplayConcat(m, OfInvocation(x, id), OfInvocation(y, id));
  }

  lemma ReplaySingle(m: Marks, e: Event, id: string)
    requires e.invocationId == id
    ensures Replay(m, OfInvocation([e], id)) == ReplayOne(m, e)
  {
    assert [e][..0] == [];
    assert OfInvocation([e], id) == OfInvocation([], id) + [e] == [e];
    assert Replay(m, [e]) == ReplayOne(Replay(m, [][..]), e);
  }

  /** What the replay of one child run leaves of the shell's standing. */
  lemma ReplayRun(a: Shell, s: Snapshot, m: Marks, run: ChildRun)
    requires Elsewhere(a, run.events)
    ensures var m' := Replay(m, OfInvocation(RunEvents(a, s, run), s.invocationId));
            StandingOf(m', a.name) ==
            if run.announced then Running(Encode(a, run.times, run.child)) else StandingOf(m, a.name)
  {
    var id := s.invocationId;
    if run.announced {
      var marker := StateMarker(a, s, run.stamp, Encode(a, run.times, run.child));
      ReplayInvocationConcat(m, [marker], run.events, id);
      ReplaySingle(m, marker, id);
      ReplayForeign(ReplayOne(m, marker), run.events, a.name, id);
    } else {
      assert RunEvents(a, s, run) == run.events;
      ReplayForeign(m, run.events, a.name, id);
    }
  }

  /**
   * Replaying what a turn emitted gives back the position of its last run: this is what makes the
   * markers, the replay and the start position of the next turn agree.
   */
  lemma {:induction false} ReplayRuns(a: Shell, s: Snapshot, m: Marks, runs: seq<ChildRun>)
    requires OthersOnly(a, runs) && Announced(a, m, runs)
    ensures var m' := Replay(m, OfInvocation(RunsEvents(a, s, runs), s.invocationId));
            StandingOf(m', a.name) ==
            if runs == [] then StandingOf(m, a.name)
            else Running(Encode(a, runs[|runs| - 1].times, runs[|runs| - 1].child))
    decreases |runs|
  {
    if runs != [] {
      var init, last := runs[..|runs| - 1], runs[|runs| - 1];
      var before := RunsEvents(a, s, init);
      ReplayRuns(a, s, m, init);
      ReplayInvocationConcat(m, before, RunEvents(a, s, last), s.invocationId);
      ReplayRun(a, s, Replay(m, OfInvocation(before, s.invocationId)), last);
    }
  }

  // ----- End markers -----

  /** The end marker of a shell, as it appears in a history. */
  predicate EndsShell(e: Event, name: string, id: string) {
    Key(e) == name && e.invocationId == id && e.actions.endOfAgent
  }

  function CountEnds(events: seq<Event>, name: string, id: string): nat {
    if events == [] then 0
    else CountEnds(events[..|events| - 1], name, id) + if EndsShell(events[|events| - 1], name, id) then 1 else 0
  }

  lemma {:induction false} CountEndsConcat(x: seq<Event>, y: seq<Event>, name: string, id: string)
    ensures CountEnds(x + y, name, id) == CountEnds(x, name, id) + CountEnds(y, name, id)
  {
    if y == [] {
      assert x + y == x;
    } else {
      assert (x + y)[..|x + y| - 1] == x + y[..|y| - 1];
      CountEndsConcat(x, y[..|y| - 1], name, id);
    }
  }

  lemma {:induction false} NoEnds(events: seq<Event>, name: string, id: string)
    requires forall i :: 0 <= i < |events| ==> !EndsShell(events[i], name, id)
    ensures CountEnds(events, name, id) == 0
  {
    if events != [] {
      NoEnds(events[..|events| - 1], name, id);
    }
  }

  lemma {:induction false} RunsHaveNoEnds(a: Shell, s: Snapshot, runs: seq<ChildRun>)
    requires OthersOnly(a, runs)
    ensures CountEnds(RunsEvents(a, s, runs), a.name, s.invocationId) == 0
    decreases |runs|
  {
    if runs != [] {
      var init, more := runs[..|runs| - 1], RunEvents(a, s, runs[|runs| - 1]);
      RunsHaveNoEnds(a, s, init);
      NoEnds(more, a.name, s.invocationId);
      CountEndsConcat(RunsEvents(a, s, init), more, a.name, s.invocationId);
    }
  }
}
