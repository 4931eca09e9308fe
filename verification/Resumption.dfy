/** Whole conversations: a shell agent resumed turn after turn from the history it has left so far. */
module Resumption {
  import opened Wrappers
  import opened Events
  import opened Contexts
  import opened AgentStates
  import opened Orchestration
  import SequentialAgent
  import LoopAgent

  /** A resumable shell agent at work on one invocation; `max` bounds the rounds of a loop. */
  datatype Config = Config(shell: Shell, max: Option<nat>, invocationId: string, branch: Option<string>)

  /** One turn: the events that arrive before it, the session state it finds, and how its runs come out. */
  datatype Turn = Turn(inbox: seq<Event>, state: StateMap, world: World)

  /** Where a conversation stands: its history, every child run it recorded, and whether the agent is done. */
  datatype Play = Play(history: seq<Event>, runs: seq<ChildRun>, ended: bool)

  /** A fresh context, populated from the history. */
  function Open(c: Config, history: seq<Event>, state: StateMap): Snapshot {
    Snapshot(c.invocationId, c.branch, true, history, state, Restored(history, c.invocationId, true))
  }

  function Run(c: Config, w: World, s: Snapshot): TurnLog {
    match c.shell.kind
    case Sequential => SequentialAgent.Turn(c.shell, w, s)
    case Loop => LoopAgent.Turn(c.shell, c.max, w, s)
  }

  /** A turn appends what it returns; an error, or a turn that never comes back, appends nothing. */
  function PlayTurn(c: Config, p: Play, t: Turn): Play {
    var h := p.history + t.inbox;
    var s := Open(c, h, t.state);
    var log := Run(c, t.world, s);
    if log.Log? then Play(h + Transcript(c.shell, s, t.world, log), p.runs + log.runs, log.ended)
    else Play(h, p.runs, false)
  }

  /** The turns are played in order until the agent is done. */
  function PlayAll(c: Config, history: seq<Event>, turns: seq<Turn>): Play {
    if turns == [] then Play(history, [], false)
    else
      var p := PlayAll(c, history, turns[..|turns| - 1]);
      if p.ended then p else PlayTurn(c, p, turns[|turns| - 1])
  }

  /**
   * The children are distinct leaves, a loop's not called like the loop, whose reset would not end;
   * nobody else files events under the shell's own name; and at first it is not under way.
   */
  ghost predicate Orderly(c: Config, history: seq<Event>, turns: seq<Turn>) {
    Distinct(c.shell) && AtRest(c, history) &&
    (c.shell.kind.Loop? ==> c.shell.name !in c.shell.children) &&
    (c.max.Some? ==> c.max.value < U32_LIMIT) &&
    forall k :: 0 <= k < |turns| ==>
      Foreign(turns[k].inbox, c.shell.name, c.invocationId) && LeafDiscipline(c.shell, turns[k].world)
  }

  /** What the history of a conversation lets a fresh context know about the agent. */
  function StandingIn(c: Config, history: seq<Event>): Standing {
    StandingOf(Restored(history, c.invocationId, true), c.shell.name)
  }

  /** As the history has it, the agent has not begun, or has come to its end. */
  predicate AtRest(c: Config, history: seq<Event>) {
    !StandingIn(c, history).Running?
  }

  lemma ForeignIsAtRest(c: Config, history: seq<Event>)
    requires Foreign(history, c.shell.name, c.invocationId)
    ensures AtRest(c, history)
  {
    RestoredAppends(c, [], history);
    assert [] + history == history;
    ReplayForeign(NO_MARKS, history, c.shell.name, c.invocationId);
  }

  /** The runs recorded so far are in order, and the agent is done exactly when it should be. */
  ghost predicate InOrder(c: Config, p: Play) {
    Chain(|c.shell.children|, (0, 0), p.runs) &&
    (if p.ended then Finished(c, p.runs) else p.runs != [] ==> p.runs[|p.runs| - 1].paused) &&
    if c.shell.kind.Sequential? then SequentialAgent.OncePerChild(p.runs) else KeepsBounds(c, p)
  }

  /** What the history replays to, and the end markers added to the first `before`, agree with the runs recorded. */
  ghost predicate Agrees(c: Config, before: nat, p: Play) {
    (if p.ended then StandingIn(c, p.history) == Ended
     else if p.runs == [] then AtRest(c, p.history)
     else
       var last := p.runs[|p.runs| - 1];
       StandingIn(c, p.history) == Running(Encode(c.shell, last.times, last.child))) &&
    CountEnds(p.history, c.shell.name, c.invocationId) == before + (if p.ended then 1 else 0) &&
    (p.ended ==> EndsLast(c, p.history))
  }

  ghost predicate InStep(c: Config, before: nat, p: Play) {
    InOrder(c, p) && Agrees(c, before, p)
  }

  /** The last event of the history is the agent's end marker. */
  predicate EndsLast(c: Config, history: seq<Event>) {
    history != [] && EndsShell(history[|history| - 1], c.shell.name, c.invocationId)
  }

  /** All children completed; a loop met its bound, or its last run completed and asked to stop. */
  ghost predicate Finished(c: Config, runs: seq<ChildRun>) {
    var n := |c.shell.children|;
    match c.shell.kind
    case Sequential => After(n, (0, 0), runs) == (1, 0)
    case Loop =>
      !LoopAgent.MayLoop(c.max, After(n, (0, 0), runs).0) ||
      (runs != [] && runs[|runs| - 1].escalated && !runs[|runs| - 1].paused)
  }

  /** No run beyond the bound, and none after one that completed and asked to stop. */
  ghost predicate KeepsBounds(c: Config, p: Play) {
    forall k :: 0 <= k < |p.runs| ==>
      LoopAgent.MayLoop(c.max, p.runs[k].times) && p.runs[k].times < U32_LIMIT &&
      (p.runs[k].escalated && !p.runs[k].paused ==> k == |p.runs| - 1 && p.ended)
  }

  /** A turn takes the runs up where the conversation left off. */
  lemma ChainExtends(n: nat, runs: seq<ChildRun>, more: seq<ChildRun>)
    requires Chain(n, (0, 0), runs) && Chain(n, After(n, (0, 0), runs), more)
    ensures Chain(n, (0, 0), runs + more)
    ensures After(n, (0, 0), runs + more) == After(n, After(n, (0, 0), runs), more)
  {
    var all := runs + more;
    forall k | 0 < k < |all| ensures Spot(all[k]) == Next(n, all[k - 1]) {
      if k > |runs| {
        assert all[k] == more[k - |runs|] && all[k - 1] == more[k - 1 - |runs|];
      }
    }
    assert more == [] ==> all == runs;
  }

  /** What the history knows after a turn: its events are replayed on top of what was known before. */
  lemma RestoredAppends(c: Config, history: seq<Event>, more: seq<Event>)
    ensures Restored(history + more, c.invocationId, true) ==
            Replay(Restored(history, c.invocationId, true), OfInvocation(more, c.invocationId))
  {
    ReplayInvocationConcat(NO_MARKS, history, more, c.invocationId);
  }

  lemma ForeignInbox(c: Config, history: seq<Event>, inbox: seq<Event>)
    requires Foreign(inbox, c.shell.name, c.invocationId)
    ensures StandingIn(c, history + inbox) == StandingIn(c, history)
    ensures CountEnds(history + inbox, c.shell.name, c.invocationId) ==
            CountEnds(history, c.shell.name, c.invocationId)
  {
    RestoredAppends(c, history, inbox);
    ReplayForeign(Restored(history, c.invocationId, true), inbox, c.shell.name, c.invocationId);
    NoEnds(inbox, c.shell.name, c.invocationId);
    CountEndsConcat(history, inbox, c.shell.name, c.invocationId);
  }

  /** What a turn's own transcript does to the standing. */
  lemma TranscriptStanding(a: Shell, s: Snapshot, w: World, log: TurnLog)
    requires log.Log? && s.resumable && OthersOnly(a, log.runs) && Announced(a, s.marks, log.runs)
    ensures var m := Replay(s.marks, OfInvocation(Transcript(a, s, w, log), s.invocationId));
            StandingOf(m, a.name) ==
            if log.ended then Ended
            else if log.runs == [] then StandingOf(s.marks, a.name)
            else Running(Encode(a, log.runs[|log.runs| - 1].times, log.runs[|log.runs| - 1].child))
  {
    ReplayRuns(a, s, s.marks, log.runs);
    if log.ended {
      ReplayInvocationConcat(s.marks, RunsEvents(a, s, log.runs), [EndMarker(a, s, w.end)], s.invocationId);
      EndReplayed(a, s, w.end, Replay(s.marks, OfInvocation(RunsEvents(a, s, log.runs), s.invocationId)));
    } else {
      assert Transcript(a, s, w, log) == RunsEvents(a, s, log.runs);
    }
  }

  lemma EndReplayed(a: Shell, s: Snapshot, stamp: Stamp, m: Marks)
    ensures StandingOf(Replay(m, OfInvocation([EndMarker(a, s, stamp)], s.invocationId)), a.name) == Ended
  {
    ReplaySingle(m, EndMarker(a, s, stamp), s.invocationId);
  }

  /** A turn emits its end marker once, and last, when it ends; and never otherwise. */
  lemma TranscriptEnds(a: Shell, s: Snapshot, w: World, log: TurnLog)
    requires log.Log? && s.resumable && OthersOnly(a, log.runs)
    ensures var events := Transcript(a, s, w, log);
            CountEnds(events, a.name, s.invocationId) == (if log.ended then 1 else 0) &&
            (log.ended ==> events != [] && EndsShell(events[|events| - 1], a.name, s.invocationId))
  {
    var body := RunsEvents(a, s, log.runs);
    RunsHaveNoEnds(a, s, log.runs);
    if log.ended {
      assert (body + [EndMarker(a, s, w.end)])[..|body|] == body;
    } else {
      assert Transcript(a, s, w, log) == body;
    }
  }

  /** What the runs of one turn are like, for either kind of agent. */
  ghost predicate TurnSound(c: Config, m: Marks, start: (nat, nat), log: TurnLog)
    requires log.Log?
  {
    Stretch(c.shell, m, start, log) &&
    match c.shell.kind
    case Sequential =>
      SequentialAgent.OncePerChild(log.runs) &&
      (log.ended ==> After(|c.shell.children|, start, log.runs) == (1, 0))
    case Loop =>
      LoopAgent.WithinBounds(c.max, log.runs) && LoopAgent.EndsRightly(|c.shell.children|, c.max, start, log)
  }

  /** A turn's own runs, for either kind of agent. */
  lemma RunStretch(c: Config, w: World, s: Snapshot, start: (nat, nat))
    requires Distinct(c.shell) && s.resumable && LeafDiscipline(c.shell, w)
    requires StartsAt(c.shell, StandingOf(s.marks, c.shell.name), start)
    requires c.shell.kind.Sequential? ==> start.0 == 0
    ensures Run(c, w, s).Log? ==> TurnSound(c, s.marks, start, Run(c, w, s))
  {
    match c.shell.kind
    case Sequential => SequentialAgent.TurnStretch(c.shell, w, s, start.1);
    case Loop => LoopAgent.TurnStretch(c.shell, c.max, w, s, start);
  }

  /** What a turn may rely on when it is opened: it starts where the conversation stands. */
  lemma OpensAt(c: Config, before: nat, p: Play, t: Turn)
    requires InStep(c, before, p) && !p.ended && Distinct(c.shell)
    requires Foreign(t.inbox, c.shell.name, c.invocationId)
    ensures var s := Open(c, p.history + t.inbox, t.state);
            var start := After(|c.shell.children|, (0, 0), p.runs);
            StartsAt(c.shell, StandingOf(s.marks, c.shell.name), start) &&
            (c.shell.kind.Sequential? ==> start.0 == 0)
  {
    ForeignInbox(c, p.history, t.inbox);
  }

  lemma OrderExtends(c: Config, p: Play, log: TurnLog, m: Marks)
    requires InOrder(c, p) && !p.ended && c.shell.children != []
    requires var start := After(|c.shell.children|, (0, 0), p.runs);
             log.Log? && TurnSound(c, m, start, log)
    ensures forall h :: InOrder(c, Play(h, p.runs + log.runs, log.ended))
  {
    var n := |c.shell.children|;
    ChainExtends(n, p.runs, log.runs);
    var runs := p.runs + log.runs;
    assert log.runs != [] ==> runs[|runs| - 1] == log.runs[|log.runs| - 1];
    forall h ensures InOrder(c, Play(h, runs, log.ended)) {
    }
  }

  lemma AgreementExtends(c: Config, before: nat, p: Play, h: seq<Event>, s: Snapshot, w: World, log: TurnLog)
    requires log.Log? && Agrees(c, before, Play(h, p.runs, false)) && s == Open(c, h, s.sessionState)
    requires OthersOnly(c.shell, log.runs) && Announced(c.shell, s.marks, log.runs)
    ensures Agrees(c, before, Play(h + Transcript(c.shell, s, w, log), p.runs + log.runs, log.ended))
  {
    hide OthersOnly, Announced, Transcript, CountEnds, StandingOf, Replay, OfInvocation, EndsShell, Encode;
    var events, runs := Transcript(c.shell, s, w, log), p.runs + log.runs;
    TranscriptStanding(c.shell, s, w, log);
    TranscriptEnds(c.shell, s, w, log);
    RestoredAppends(c, h, events);
    CountEndsConcat(h, events, c.shell.name, c.invocationId);
    assert if log.runs == [] then runs == p.runs else runs[|runs| - 1] == log.runs[|log.runs| - 1];
  }

  /** Appending the transcript of a sound turn keeps history and runs in agreement. */
  lemma SoundTurnKeepsStep(c: Config, before: nat, p: Play, h: seq<Event>, s: Snapshot, w: World, log: TurnLog)
    requires InOrder(c, p) && !p.ended && c.shell.children != [] && log.Log?
    requires s == Open(c, h, s.sessionState) && Agrees(c, before, Play(h, p.runs, false))
    requires TurnSound(c, s.marks, After(|c.shell.children|, (0, 0), p.runs), log)
    ensures InStep(c, before, Play(h + Transcript(c.shell, s, w, log), p.runs + log.runs, log.ended))
  {
    OrderExtends(c, p, log, s.marks);
    AgreementExtends(c, before, p, h, s, w, log);
  }

  /** The conversation after one more turn. */
  lemma TurnKeepsStep(c: Config, before: nat, p: Play, t: Turn)
    requires InStep(c, before, p) && !p.ended
    requires Distinct(c.shell) && LeafDiscipline(c.shell, t.world)
    requires Foreign(t.inbox, c.shell.name, c.invocationId)
    ensures InStep(c, before, PlayTurn(c, p, t))
  {
    var h := p.history + t.inbox;
    var s := Open(c, h, t.state);
    ForeignInbox(c, p.history, t.inbox);
    OpensAt(c, before, p, t);
    RunStretch(c, t.world, s, After(|c.shell.children|, (0, 0), p.runs));
    if Run(c, t.world, s).Log? {
      SoundTurnKeepsStep(c, before, p, h, s, t.world, Run(c, t.world, s));
    }
  }

  /** Every conversation stays in step, however many turns it takes and whatever they bring. */
  lemma {:induction false} PlayStaysInStep(c: Config, history: seq<Event>, turns: seq<Turn>)
    requires Orderly(c, history, turns)
    ensures InStep(c, CountEnds(history, c.shell.name, c.invocationId), PlayAll(c, history, turns))
    decreases |turns|
  {
    if turns != [] {
      PlayStaysInStep(c, history, turns[..|turns| - 1]);
      var p := PlayAll(c, history, turns[..|turns| - 1]);
      if !p.ended {
        TurnKeepsStep(c, CountEnds(history, c.shell.name, c.invocationId), p, turns[|turns| - 1]);
      }
    }
  }

  /** One more turn goes on with the last pass, or begins a new one if that has come to its end. */
  function PlayMore(c: Config, passes: seq<Play>, t: Turn): (r: seq<Play>)
    requires passes != []
    ensures r != []
  {
    var last := passes[|passes| - 1];
    if last.ended then passes + [PlayTurn(c, Play(last.history, [], false), t)]
    else passes[..|passes| - 1] + [PlayTurn(c, last, t)]
  }

  /** Turns that go on after the agent is done. */
  function PlayOn(c: Config, history: seq<Event>, turns: seq<Turn>): (passes: seq<Play>)
    ensures passes != []
  {
    if turns == [] then [Play(history, [], false)]
    else PlayMore(c, PlayOn(c, history, turns[..|turns| - 1]), turns[|turns| - 1])
  }

  /** Every pass but the last has come to its end, and each was in step, with one end marker for each before it. */
  ghost predicate PassesInStep(c: Config, before: nat, passes: seq<Play>) {
    forall k :: 0 <= k < |passes| ==> (k < |passes| - 1 ==> passes[k].ended) && InStep(c, before + k, passes[k])
  }

  lemma MoreStaysInStep(c: Config, before: nat, passes: seq<Play>, t: Turn)
    requires passes != [] && PassesInStep(c, before, passes)
    requires Distinct(c.shell) && LeafDiscipline(c.shell, t.world)
    requires Foreign(t.inbox, c.shell.name, c.invocationId)
    ensures PassesInStep(c, before, PlayMore(c, passes, t))
  {
    hide InStep, PlayTurn, Distinct, LeafDiscipline, Foreign;
    var n := |passes|;
    var last := passes[n - 1];
    assert InStep(c, before + n - 1, last);
    if last.ended {
      PassEnded(c, before + n - 1, last);
      TurnKeepsStep(c, before + n, Play(last.history, [], false), t);
    } else {
      TurnKeepsStep(c, before + n - 1, last, t);
    }
  }

  lemma PassEnded(c: Config, before: nat, p: Play)
    requires InStep(c, before, p) && p.ended
    ensures InStep(c, before + 1, Play(p.history, [], false))
  {
    NewPass(c, before + 1, p.history);
  }

  /**
   * So it is over any number of passes: each runs through the children in order from the origin again,
   * and leaves exactly one end marker when it is done.
   */
  lemma {:induction false} PassesStayInStep(c: Config, history: seq<Event>, turns: seq<Turn>)
    requires Orderly(c, history, turns)
    ensures PassesInStep(c, CountEnds(history, c.shell.name, c.invocationId), PlayOn(c, history, turns))
    decreases |turns|
  {
    var before := CountEnds(history, c.shell.name, c.invocationId);
    if turns == [] {
      NewPass(c, before, history);
    } else {
      PassesStayInStep(c, history, turns[..|turns| - 1]);
      MoreStaysInStep(c, before, PlayOn(c, history, turns[..|turns| - 1]), turns[|turns| - 1]);
    }
  }

  /** The first pass is the conversation up to the end of the agent. */
  lemma {:induction false} FirstPass(c: Config, history: seq<Event>, turns: seq<Turn>)
    ensures PlayOn(c, history, turns)[0] == PlayAll(c, history, turns)
    ensures |PlayOn(c, history, turns)| > 1 ==> PlayAll(c, history, turns).ended
    decreases |turns|
  {
    if turns != [] {
      hide PlayTurn;
      FirstPass(c, history, turns[..|turns| - 1]);
    }
  }

  lemma NewPass(c: Config, before: nat, history: seq<Event>)
    requires AtRest(c, history) && CountEnds(history, c.shell.name, c.invocationId) == before
    ensures InStep(c, before, Play(history, [], false))
  {
  }

  // ----- What this means -----

  /** `x` is no later than `y`, position by position. */
  predicate NoLater(x: (nat, nat), y: (nat, nat)) {
    x.0 < y.0 || (x.0 == y.0 && x.1 <= y.1)
  }

  lemma RankOrders(n: nat, r: ChildRun, r': ChildRun)
    requires r.child < n && r'.child < n
    ensures Rank(n, r) <= Rank(n, r') ==> NoLater(Spot(r), Spot(r'))
    ensures Rank(n, r) < Rank(n, r') ==> Spot(r) != Spot(r')
  {
    if r'.times < r.times {
      NextMultiple(n, r'.times, r.times);
    }
  }

  lemma PassInOrder(c: Config, history: seq<Event>, turns: seq<Turn>, pass: nat)
    requires Orderly(c, history, turns) && pass < |PlayOn(c, history, turns)|
    ensures InOrder(c, PlayOn(c, history, turns)[pass]) && Distinct(c.shell)
  {
    PassesStayInStep(c, history, turns);
    assert Distinct(c.shell);
    hide *;
    PassIn(c, CountEnds(history, c.shell.name, c.invocationId), PlayOn(c, history, turns), pass);
  }

  lemma PassIn(c: Config, before: nat, passes: seq<Play>, pass: nat)
    requires PassesInStep(c, before, passes) && pass < |passes|
    ensures InOrder(c, passes[pass])
  {
    hide InOrder, Agrees;
    assert InStep(c, before + pass, passes[pass]);
  }

  /** Over all turns of a pass positions never move backwards, and never return to one completed. */
  lemma NeverBackwards(c: Config, history: seq<Event>, turns: seq<Turn>, pass: nat, j: nat, k: nat)
    requires Orderly(c, history, turns) && pass < |PlayOn(c, history, turns)|
    requires j < k < |PlayOn(c, history, turns)[pass].runs|
    ensures var runs := PlayOn(c, history, turns)[pass].runs;
            NoLater(Spot(runs[j]), Spot(runs[k])) && (!runs[j].paused ==> Spot(runs[j]) != Spot(runs[k]))
  {
    PassInOrder(c, history, turns, pass);
    var n, runs := |c.shell.children|, PlayOn(c, history, turns)[pass].runs;
    hide PlayOn, Orderly, Finished, KeepsBounds;
    RankMonotone(n, runs, j, k);
    RankOrders(n, runs[j], runs[k]);
  }

  /**
   * A sequential agent is done with a pass exactly when all its children have completed; each child
   * before the current one has then completed in exactly one run recorded in the pass.
   */
  lemma SequentialCompletes(c: Config, history: seq<Event>, turns: seq<Turn>, pass: nat)
    requires Orderly(c, history, turns) && pass < |PlayOn(c, history, turns)| && c.shell.kind.Sequential?
    ensures var p, n := PlayOn(c, history, turns)[pass], |c.shell.children|;
            Completed(p.runs) <= n && (p.ended <==> Completed(p.runs) == n) &&
            forall child :: 0 <= child < Completed(p.runs) ==> CompletesOnce(p.runs, 0, child)
  {
    PassInOrder(c, history, turns, pass);
    var p, n := PlayOn(c, history, turns)[pass], |c.shell.children|;
    hide PlayOn, Orderly, Finished, CompletesOnce;
    SequentialCount(c, p);
    forall child | 0 <= child < Completed(p.runs) ensures CompletesOnce(p.runs, 0, child) {
      PositionCompletesOnce(n, p.runs, 0, child);
    }
  }

  lemma SequentialCount(c: Config, p: Play)
    requires InOrder(c, p) && c.shell.children != [] && c.shell.kind.Sequential?
    ensures Completed(p.runs) <= |c.shell.children|
    ensures p.ended <==> Completed(p.runs) == |c.shell.children|
  {
    AfterCounts(|c.shell.children|, p.runs);
  }

  /** Exactly one of the runs completed position `(times, child)`. */
  ghost predicate CompletesOnce(runs: seq<ChildRun>, times: nat, child: nat) {
    exists k :: 0 <= k < |runs| && !runs[k].paused && Spot(runs[k]) == (times, child) &&
                forall j :: 0 <= j < |runs| && !runs[j].paused && Spot(runs[j]) == (times, child) ==> j == k
  }

  lemma PositionCompletesOnce(n: nat, runs: seq<ChildRun>, times: nat, child: nat)
    requires Chain(n, (0, 0), runs) && child < n && times * n + child < Completed(runs)
    ensures CompletesOnce(runs, times, child)
  {
    var k := CompletingRun(n, runs, times * n + child);
    RankInjective(n, runs[k], runs[k].(times := times, child := child));
    forall j | 0 <= j < |runs| && !runs[j].paused && Spot(runs[j]) == (times, child) ensures j == k {
      if j < k { RankMonotone(n, runs, j, k); }
      if k < j { RankMonotone(n, runs, k, j); }
    }
  }

  /**
   * In one pass a loop over `n` children bounded by `m` rounds completes at most `m * n` positions, each
   * of them once, and exactly as many if it comes to its end without an escalation, which it cannot
   * without a bound; nothing runs after a run that completed and escalated.
   */
  lemma LoopCompletes(c: Config, history: seq<Event>, turns: seq<Turn>, pass: nat)
    requires Orderly(c, history, turns) && pass < |PlayOn(c, history, turns)| && c.shell.kind.Loop?
    ensures var p, n := PlayOn(c, history, turns)[pass], |c.shell.children|;
            (c.max.Some? ==> Completed(p.runs) <= c.max.value * n) &&
            (p.ended && (p.runs == [] || !p.runs[|p.runs| - 1].escalated) ==>
               c.max.Some? && Completed(p.runs) == c.max.value * n) &&
            (forall k :: 0 <= k < |p.runs| && p.runs[k].escalated && !p.runs[k].paused ==>
               k == |p.runs| - 1 && p.ended) &&
            (forall times: nat, child: nat :: child < n && Earlier(n, times, child, p.runs) ==>
               CompletesOnce(p.runs, times, child))
  {
    PassInOrder(c, history, turns, pass);
    var p, n := PlayOn(c, history, turns)[pass], |c.shell.children|;
    hide PlayOn, Orderly, CompletesOnce, Earlier, Finished;
    LoopBound(c, p);
    MetBound(c, p);
    forall times: nat, child: nat | child < n && Earlier(n, times, child, p.runs)
      ensures CompletesOnce(p.runs, times, child)
    {
      EarlierCompletesOnce(n, p.runs, times, child);
    }
  }

  lemma LoopBound(c: Config, p: Play)
    requires InOrder(c, p) && c.shell.kind.Loop? && c.shell.children != []
    ensures c.max.Some? ==> Completed(p.runs) <= c.max.value * |c.shell.children|
  {
    var n := |c.shell.children|;
    if p.runs != [] && c.max.Some? {
      var last := p.runs[|p.runs| - 1];
      RankCounts(n, p.runs, |p.runs| - 1);
      NextMultiple(n, last.times, c.max.value);
    }
  }

  /** A pass that ended without an escalation has completed all positions below the bound. */
  lemma MetBound(c: Config, p: Play)
    requires InOrder(c, p) && c.shell.kind.Loop? && c.shell.children != []
    ensures p.ended && (p.runs == [] || !p.runs[|p.runs| - 1].escalated) ==>
              c.max.Some? && Completed(p.runs) == c.max.value * |c.shell.children|
  {
    var n := |c.shell.children|;
    if p.ended && (p.runs == [] || !p.runs[|p.runs| - 1].escalated) {
      AfterCounts(n, p.runs);
      LoopBound(c, p);
      var at := After(n, (0, 0), p.runs);
      if c.max.value < at.0 {
        NextMultiple(n, c.max.value, at.0);
      }
    }
  }

  lemma EarlierCompletesOnce(n: nat, runs: seq<ChildRun>, times: nat, child: nat)
    requires Chain(n, (0, 0), runs) && child < n && Earlier(n, times, child, runs)
    ensures CompletesOnce(runs, times, child)
  {
    PositionCompletesOnce(n, runs, times, child);
  }

  /** Position `(times, child)` lies before the one the runs have come to. */
  predicate Earlier(n: nat, times: nat, child: nat, runs: seq<ChildRun>) {
    times * n + child < Completed(runs)
  }

  /** The end marker does not keep an agent from running again: one more turn starts over from the origin. */
  lemma EndedStartsOver(c: Config, history: seq<Event>, turns: seq<Turn>, t: Turn)
    requires Orderly(c, history, turns + [t]) && PlayAll(c, history, turns).ended
    ensures var h := PlayAll(c, history, turns).history + t.inbox;
            var log := Run(c, t.world, Open(c, h, t.state));
            log.Log? && log.runs != [] ==> Spot(log.runs[0]) == (0, 0) && log.runs[0].announced
  {
    forall k | 0 <= k < |turns|
      ensures Foreign(turns[k].inbox, c.shell.name, c.invocationId) && LeafDiscipline(c.shell, turns[k].world)
    {
      assert (turns + [t])[k] == turns[k];
    }
    assert (turns + [t])[|turns|] == t;
    PlayStaysInStep(c, history, turns);
    var p := PlayAll(c, history, turns);
    ForeignInbox(c, p.history, t.inbox);
    RunStretch(c, t.world, Open(c, p.history + t.inbox, t.state), (0, 0));
  }
}
