/** `InvocationContext`: resumable agent states and the pause test. */
module Contexts {
  import opened Wrappers
  import opened Events
  import opened Agents
  import opened Strings

  /** What a context tracks about resumable agents: two maps keyed by agent name. */
  datatype Marks = Marks(states: map<string, StateMap>, ends: map<string, bool>)

  const NO_MARKS := Marks(map[], map[])

  /** A key has a state exactly when the other map says it has not ended. */
  ghost predicate Coherent(m: Marks) {
    forall k :: k in m.states <==> k in m.ends && !m.ends[k]
  }

  /** A copy of everything an agent run can read of its context. */
  datatype Snapshot = Snapshot(
    invocationId: string,
    branch: Option<string>,
    resumable: bool,
    history: seq<Event>,
    sessionState: StateMap,
    marks: Marks)

  function SetMark(m: Marks, name: string, state: Option<StateMap>, end: bool): Marks {
    if end then Marks(m.states - {name}, m.ends[name := true])
    else if state.Some? then Marks(m.states[name := state.value], m.ends[name := false])
    else Marks(m.states - {name}, m.ends - {name})
  }

  /** The effect one event of the history has on the marks. */
  function ReplayOne(m: Marks, e: Event): Marks {
    if e.actions.endOfAgent then SetMark(m, Key(e), None, true)
    else if e.actions.agentState.Some? then SetMark(m, Key(e), e.actions.agentState, false)
    else if e.author != "user" && e.content.Some? && Key(e) !in m.states then
      SetMark(m, Key(e), Some(map[]), false)
    else m
  }

  function Replay(m: Marks, events: seq<Event>): Marks {
    if events == [] then m
    else ReplayOne(Replay(m, events[..|events| - 1]), events[|events| - 1])
  }

  function OfInvocation(events: seq<Event>, invocationId: string): seq<Event> {
    if events == [] then []
    else
      OfInvocation(events[..|events| - 1], invocationId) +
      (if events[|events| - 1].invocationId == invocationId then [events[|events| - 1]] else [])
  }

  /** The marks a fresh context rebuilds from `history`. */
  function Restored(history: seq<Event>, invocationId: string, resumable: bool): Marks {
    if resumable then Replay(NO_MARKS, OfInvocation(history, invocationId)) else NO_MARKS
  }

  /** Some user event answers call `callId` on a sub-branch tagged with it. */
  predicate AnsweredIn(events: seq<Event>, callId: string) {
    events != [] &&
    ((events[0].author == "user" && events[0].branch.Some? && callId in BranchRunIds(events[0].branch.value)) ||
     AnsweredIn(events[1..], callId))
  }

  /** Some user event after the first event with id `eventId` answers call `callId`. */
  predicate Resolved(history: seq<Event>, eventId: string, callId: string) {
    history != [] &&
    if history[0].id == eventId then AnsweredIn(history[1..], callId)
    else Resolved(history[1..], eventId, callId)
  }

  predicate AnyUnresolved(history: seq<Event>, event: Event, ids: seq<string>) {
    ids != [] &&
    ((Some(ids[0]) in GetFunctionCalls(event) && !Resolved(history, event.id, ids[0])) ||
     AnyUnresolved(history, event, ids[1..]))
  }

  /** `event` carries a long-running call that nothing in the history answers yet. */
  predicate ShouldPause(history: seq<Event>, event: Event) {
    event.longRunningToolIds.Some? && AnyUnresolved(history, event, event.longRunningToolIds.value)
  }

  predicate AnyPauses(history: seq<Event>, events: seq<Event>) {
    events != [] && (AnyPauses(history, events[..|events| - 1]) || ShouldPause(history, events[|events| - 1]))
  }

  predicate AnyEscalates(events: seq<Event>) {
    events != [] && (AnyEscalates(events[..|events| - 1]) || events[|events| - 1].actions.escalate)
  }

  // ----- When a run pauses or escalates -----

  lemma {:induction false} PausesByMembership(history: seq<Event>, events: seq<Event>)
    ensures AnyPauses(history, events) <==> exists i :: 0 <= i < |events| && ShouldPause(history, events[i])
  {
    if events != [] {
      PausesByMembership(history, events[..|events| - 1]);
      if i :| 0 <= i < |events| && ShouldPause(history, events[i]) {
        assert i < |events| - 1 ==> events[..|events| - 1][i] == events[i];
      }
    }
  }

  lemma {:induction false} EscalatesByMembership(events: seq<Event>)
    ensures AnyEscalates(events) <==> exists i :: 0 <= i < |events| && events[i].actions.escalate
  {
    if events != [] {
      EscalatesByMembership(events[..|events| - 1]);
      if i :| 0 <= i < |events| && events[i].actions.escalate {
        assert i < |events| - 1 ==> events[..|events| - 1][i] == events[i];
      }
    }
  }

  /** The event has a function call with this id. */
  ghost predicate Calls(e: Event, id: string) {
    e.content.Some? && exists i :: 0 <= i < |e.content.value.parts| && e.content.value.parts[i].callId == Some(Some(id))
  }

  lemma {:induction false} CallIdsExact(parts: seq<Part>, id: string)
    ensures Some(id) in CallIds(parts) <==> exists i :: 0 <= i < |parts| && parts[i].callId == Some(Some(id))
  {
    if parts != [] {
      CallIdsExact(parts[1..], id);
      if i :| 0 <= i < |parts| && parts[i].callId == Some(Some(id)) {
        assert i > 0 ==> parts[1..][i - 1] == parts[i];
      }
      if i :| 0 <= i < |parts[1..]| && parts[1..][i].callId == Some(Some(id)) {
        assert parts[i + 1] == parts[1..][i];
      }
    }
  }

  /** A user event on a branch with a segment tagged with the call. */
  ghost predicate Answers(e: Event, callId: string) {
    e.author == "user" && e.branch.Some? && BranchTagged(e.branch.value, callId)
  }

  lemma {:induction false} AnsweredInExact(events: seq<Event>, callId: string)
    ensures AnsweredIn(events, callId) <==> exists j :: 0 <= j < |events| && Answers(events[j], callId)
  {
    if events != [] {
      if events[0].branch.Some? {
        BranchRunIdsExact(events[0].branch.value, callId);
      }
      AnsweredInExact(events[1..], callId);
      hide BranchRunIds, BranchTagged;
      if j :| 0 <= j < |events| && Answers(events[j], callId) {
        assert j > 0 ==> events[1..][j - 1] == events[j];
      }
      if j :| 0 <= j < |events[1..]| && Answers(events[1..][j], callId) {
        assert events[j + 1] == events[1..][j];
      }
    }
  }

  /** Index `i` is the first in the history at which an event has this id. */
  ghost predicate FirstWithId(history: seq<Event>, id: string, i: int) {
    0 <= i < |history| && history[i].id == id && forall k :: 0 <= k < i ==> history[k].id != id
  }

  /** Something after the first event with id `eventId` answers the call. */
  ghost predicate AnsweredAfter(history: seq<Event>, eventId: string, callId: string) {
    exists i, j :: FirstWithId(history, eventId, i) && i < j < |history| && Answers(history[j], callId)
  }

  lemma {:induction false} ResolvedExact(history: seq<Event>, eventId: string, callId: string)
    ensures Resolved(history, eventId, callId) <==> AnsweredAfter(history, eventId, callId)
  {
    hide Answers, AnsweredIn;
    if history == [] {
    } else if history[0].id == eventId {
      AnsweredInExact(history[1..], callId);
      assert FirstWithId(history, eventId, 0);
      if j :| 0 <= j < |history[1..]| && Answers(history[1..][j], callId) {
        assert history[j + 1] == history[1..][j];
      }
      if i, j :| FirstWithId(history, eventId, i) && i < j < |history| && Answers(history[j], callId) {
        assert history[1..][j - 1] == history[j];
      }
    } else {
      ResolvedExact(history[1..], eventId, callId);
      if i, j :| FirstWithId(history, eventId, i) && i < j < |history| && Answers(history[j], callId) {
        assert forall k :: 0 <= k < |history| - 1 ==> history[1..][k] == history[k + 1];
        assert FirstWithId(history[1..], eventId, i - 1) && history[1..][j - 1] == history[j];
      }
      if i, j :| FirstWithId(history[1..], eventId, i) && i < j < |history[1..]| && Answers(history[1..][j], callId) {
        assert forall k :: 0 < k < |history| ==> history[k] == history[1..][k - 1];
        assert FirstWithId(history, eventId, i + 1) && history[j + 1] == history[1..][j];
      }
    }
  }

  lemma {:induction false} AnyUnresolvedExact(history: seq<Event>, event: Event, ids: seq<string>)
    ensures AnyUnresolved(history, event, ids) <==>
            exists id :: id in ids && Calls(event, id) && !AnsweredAfter(history, event.id, id)
  {
    hide Resolved, AnsweredAfter, CallIds, Calls;
    if ids != [] {
      CallsExact(event, ids[0]);
      ResolvedExact(history, event.id, ids[0]);
      AnyUnresolvedExact(history, event, ids[1..]);
      if id :| id in ids && Calls(event, id) && !AnsweredAfter(history, event.id, id) {
        assert id == ids[0] || id in ids[1..];
      }
    }
  }

  lemma CallsExact(event: Event, id: string)
    ensures Some(id) in GetFunctionCalls(event) <==> Calls(event, id)
  {
    if event.content.Some? {
      CallIdsExact(event.content.value.parts, id);
    }
  }

  /**
   * An event pauses its run exactly if one of its long-running calls has no answer: no user event
   * after the first event with its id, on a branch with a segment tagged with the call.
   */
  lemma PausesExactly(history: seq<Event>, event: Event)
    ensures ShouldPause(history, event) <==>
            event.longRunningToolIds.Some? &&
            exists id :: id in event.longRunningToolIds.value && Calls(event, id) && !AnsweredAfter(history, event.id, id)
  {
    hide AnyUnresolved, Calls, AnsweredAfter;
    if event.longRunningToolIds.Some? {
      AnyUnresolvedExact(history, event, event.longRunningToolIds.value);
    }
  }

  lemma {:induction false} ReplayConcat(m: Marks, a: seq<Event>, b: seq<Event>)
    ensures Replay(m, a + b) == Replay(Replay(m, a), b)
  {
    if b == [] {
      assert a + b == a;
    } else {
      assert (a + b)[..|a + b| - 1] == a + b[..|b| - 1];
      ReplayConcat(m, a, b[..|b| - 1]);
    }
  }

  lemma {:induction false} OfInvocationConcat(a: seq<Event>, b: seq<Event>, id: string)
    ensures OfInvocation(a + b, id) == OfInvocation(a, id) + OfInvocation(b, id)
  {
    if b == [] {
      assert a + b == a;
    } else {
      assert (a + b)[..|a + b| - 1] == a + b[..|b| - 1];
      OfInvocationConcat(a, b[..|b| - 1], id);
    }
  }

  /** Replaying any history keeps the two maps coherent. */
  lemma {:induction false} ReplayCoherent(m: Marks, events: seq<Event>)
    requires Coherent(m)
    ensures Coherent(Replay(m, events))
  {
    if events != [] {
      ReplayCoherent(m, events[..|events| - 1]);
    }
  }

  /** What a context knows about one agent. */
  datatype Standing = Untracked | Running(state: StateMap) | Ended

  function StandingOf(m: Marks, name: string): Standing {
    if name in m.states then Running(m.states[name])
    else if name in m.ends && m.ends[name] then Ended
    else Untracked
  }

  /** Events filed under other names, or of other invocations, leave an agent's standing alone. */
  ghost predicate Foreign(events: seq<Event>, name: string, invocationId: string) {
    forall i :: 0 <= i < |events| ==> Key(events[i]) != name || events[i].invocationId != invocationId
  }

  lemma ReplayOneForeign(m: Marks, e: Event, name: string)
    requires Key(e) != name
    ensures StandingOf(ReplayOne(m, e), name) == StandingOf(m, name)
  {
  }

  lemma {:induction false} ReplayForeign(m: Marks, events: seq<Event>, name: string, id: string)
    requires Foreign(events, name, id)
    ensures StandingOf(Replay(m, OfInvocation(events, id)), name) == StandingOf(m, name)
  {
    if events != [] {
      var init, last := events[..|events| - 1], events[|events| - 1];
      ReplayForeign(m, init, name, id);
      var own := OfInvocation(init, id);
      if last.invocationId == id {
        assert (own + [last])[..|own|] == own;
        ReplayOneForeign(Replay(m, own), last, name);
      } else {
        assert own + [] == own;
      }
    }
  }

  /** The event is filed under `name` in the invocation, by its path if it has one and else by its author. */
  predicate FiledUnder(e: Event, name: string, id: string) {
    e.invocationId == id && name == if e.path != "" then e.path else e.author
  }

  /** It records a state of the agent, or its end. */
  predicate IsMark(e: Event, name: string, id: string) {
    FiledUnder(e, name, id) && (e.actions.endOfAgent || e.actions.agentState.Some?)
  }

  /** Position of the last event that does, or -1 if none does. */
  ghost predicate LastMark(events: seq<Event>, name: string, id: string, k: int) {
    -1 <= k < |events| && (k >= 0 ==> IsMark(events[k], name, id)) &&
    forall j :: k < j < |events| ==> !IsMark(events[j], name, id)
  }

  /** Something other than the user speaks under that name. */
  predicate Speaks(e: Event, name: string, id: string) {
    FiledUnder(e, name, id) && e.author != "user" && e.content.Some?
  }

  ghost predicate SpeaksAfter(events: seq<Event>, name: string, id: string, k: int) {
    exists j :: 0 <= j < |events| && k < j && Speaks(events[j], name, id)
  }

  /** The standing that the events give an agent whose last mark among them is at `k`. */
  ghost function StandingFrom(events: seq<Event>, name: string, id: string, k: int): Standing
    requires LastMark(events, name, id, k)
  {
    if k >= 0 && !events[k].actions.endOfAgent then Running(events[k].actions.agentState.value)
    else if SpeaksAfter(events, name, id, k) then Running(map[])
    else if k >= 0 then Ended
    else Untracked
  }

  lemma OneMoreReplayed(init: seq<Event>, last: Event, id: string)
    ensures Restored(init + [last], id, true) ==
            if last.invocationId == id then ReplayOne(Restored(init, id, true), last) else Restored(init, id, true)
  {
    var own := OfInvocation(init, id);
    assert (init + [last])[..|init|] == init;
    assert (own + [last])[..|own|] == own && own + [] == own;
    hide ReplayOne;
  }

  lemma ReplayOneStanding(m: Marks, e: Event, name: string, id: string)
    requires e.invocationId == id
    ensures StandingOf(ReplayOne(m, e), name) ==
            if IsMark(e, name, id) then
              if e.actions.endOfAgent then Ended else Running(e.actions.agentState.value)
            else if Speaks(e, name, id) && !StandingOf(m, name).Running? then Running(map[])
            else StandingOf(m, name)
  {
  }

  lemma OneMoreStanding(init: seq<Event>, last: Event, name: string, id: string, k: int)
    requires LastMark(init, name, id, k)
    ensures if IsMark(last, name, id) then LastMark(init + [last], name, id, |init|)
            else LastMark(init + [last], name, id, k) &&
                 StandingFrom(init + [last], name, id, k) ==
                 if Speaks(last, name, id) && !StandingFrom(init, name, id, k).Running? then Running(map[])
                 else StandingFrom(init, name, id, k)
  {
    var events := init + [last];
    assert forall j :: 0 <= j < |init| ==> events[j] == init[j];
    assert events[|init|] == last;
    if Speaks(last, name, id) {
      assert SpeaksAfter(events, name, id, k);
    } else if SpeaksAfter(init, name, id, k) {
      var j :| k < j < |init| && Speaks(init[j], name, id);
      assert Speaks(events[j], name, id);
    }
  }

  lemma NoneAfterLast(events: seq<Event>, name: string, id: string)
    ensures !SpeaksAfter(events, name, id, |events| - 1)
  {
  }

  /**
   * The standing a fresh context of a resumable invocation restores for an agent: the last mark counts,
   * and an agent that has ended, or was never marked, runs from nothing once it speaks.
   */
  lemma {:induction false} RestoredExact(history: seq<Event>, id: string, name: string) returns (k: int)
    ensures LastMark(history, name, id, k)
    ensures StandingOf(Restored(history, id, true), name) == StandingFrom(history, name, id, k)
    decreases |history|
  {
    k := -1;
    if history != [] {
      var init, last := history[..|history| - 1], history[|history| - 1];
      assert history == init + [last];
      k := RestoredExact(init, id, name);
      OneMoreStanding(init, last, name, id, k);
      NoneAfterLast(history, name, id);
      OneMoreReplayed(init, last, id);
      if last.invocationId == id {
        ReplayOneStanding(Restored(init, id, true), last, name, id);
      }
      hide Restored, ReplayOne, StandingOf, SpeaksAfter;
      if IsMark(last, name, id) {
        k := |init|;
      }
    }
  }

  function Without(m: Marks, names: set<string>): Marks {
    Marks(m.states - names, m.ends - names)
  }

  lemma WithoutAlso(m: Marks, gone: set<string>, name: string, more: set<string>)
    ensures Without(SetMark(Without(m, gone), name, None, false), more) == Without(m, gone + ({name} + more))
  {
    assert m.states - gone - {name} - more == m.states - (gone + ({name} + more));
    assert m.ends - gone - {name} - more == m.ends - (gone + ({name} + more));
  }

  /**
   * The walk that clears an agent's descendants goes by name: it looks each child up again from the
   * root, so it is finite only while the lookups lead downwards, here at most `depth` levels.
   */
  ghost predicate Halts(root: Agent, name: string, depth: nat)
    decreases depth, 1, 0
  {
    FindAgent(root, name).Some? ==>
      depth > 0 && HaltsAmong(root, FindAgent(root, name).value.subAgents, depth - 1)
  }

  ghost predicate HaltsAmong(root: Agent, subs: seq<Agent>, depth: nat)
    decreases depth, 2, |subs|
  {
    subs == [] || (Halts(root, subs[0].name, depth) && HaltsAmong(root, subs[1..], depth))
  }

  /** The names the walk from `name` clears. */
  ghost function Visited(root: Agent, name: string, depth: nat): set<string>
    requires Halts(root, name, depth)
    decreases depth, 1, 0
  {
    var found := FindAgent(root, name);
    if found.Some? then VisitedAmong(root, found.value.subAgents, depth - 1) else {}
  }

  ghost function VisitedAmong(root: Agent, subs: seq<Agent>, depth: nat): set<string>
    requires HaltsAmong(root, subs, depth)
    decreases depth, 2, |subs|
  {
    if subs == [] then {}
    else {subs[0].name} + Visited(root, subs[0].name, depth) + VisitedAmong(root, subs[1..], depth)
  }

  class InvocationContext {
    const invocationId: string
    const branch: Option<string>
    const resumable: bool
    const agent: Option<Agent>
    const history: seq<Event>
    var sessionState: StateMap
    var agentStates: map<string, StateMap>
    var endOfAgents: map<string, bool>

    constructor (invocationId: string, branch: Option<string>, resumable: bool, agent: Option<Agent>,
                 history: seq<Event>, sessionState: StateMap)
      ensures View() == Snapshot(invocationId, branch, resumable, history, sessionState, NO_MARKS)
      ensures this.agent == agent
    {
      this.invocationId := invocationId;
      this.branch := branch;
      this.resumable := resumable;
      this.agent := agent;
      this.history := history;
      this.sessionState := sessionState;
      this.agentStates, this.endOfAgents := map[], map[];
    }

    function TrackedMarks(): Marks
      reads this
    {
      Marks(agentStates, endOfAgents)
    }

    function View(): Snapshot
      reads this
    {
      Snapshot(invocationId, branch, resumable, history, sessionState, TrackedMarks())
    }

    method SetAgentState(name: string, state: Option<StateMap>, endOfAgent: bool)
      modifies this`agentStates, this`endOfAgents
      ensures TrackedMarks() == SetMark(old(TrackedMarks()), name, state, endOfAgent)
      ensures StandingOf(TrackedMarks(), name) ==
              if endOfAgent then Ended else if state.Some? then Running(state.value) else Untracked
      ensures forall other :: other != name ==>
                StandingOf(TrackedMarks(), other) == StandingOf(old(TrackedMarks()), other)
      ensures old(Coherent(TrackedMarks())) ==> Coherent(TrackedMarks())
    {
      if endOfAgent {
        endOfAgents := endOfAgents[name := true];
        agentStates := agentStates - {name};
      } else if state.Some? {
        agentStates := agentStates[name := state.value];
        endOfAgents := endOfAgents[name := false];
      } else {
        endOfAgents := endOfAgents - {name};
        agentStates := agentStates - {name};
      }
    }

    /** Clears the entries of every agent the walk visits, and no other; it needs the walk to be finite. */
    method ResetSubAgentStates(agentName: string, ghost depth: nat)
      requires agent.Some? ==> Halts(agent.value, agentName, depth)
      modifies this`agentStates, this`endOfAgents
      ensures var gone := if agent.Some? then Visited(agent.value, agentName, depth) else {};
              TrackedMarks() == Without(old(TrackedMarks()), gone)
      decreases depth
    {
      if agent.None? { return; }
      var root := agent.value;
      var found := FindAgent(root, agentName);
      if found.None? { return; }
      var subs := found.value.subAgents;
      ghost var gone := {};
      assert subs[0..] == subs;
      for i := 0 to |subs|
        invariant TrackedMarks() == Without(old(TrackedMarks()), gone)
        invariant HaltsAmong(root, subs[i..], depth - 1)
        invariant Visited(root, agentName, depth) == gone + VisitedAmong(root, subs[i..], depth - 1)
      {
        assert subs[i..][0] == subs[i] && subs[i..][1..] == subs[i + 1..] && subs[i..][0..] == subs[i..];
        WithoutAlso(old(TrackedMarks()), gone, subs[i].name, Visited(root, subs[i].name, depth - 1));
        SetAgentState(subs[i].name, None, false);
        ResetSubAgentStates(subs[i].name, depth - 1);
        gone := gone + ({subs[i].name} + Visited(root, subs[i].name, depth - 1));
      }
    }

    /** Rebuilds the agent states from the history; without resumability it does nothing. */
    method PopulateInvocationAgentStates()
      modifies this`agentStates, this`endOfAgents
      ensures TrackedMarks() ==
              if resumable then Replay(old(TrackedMarks()), OfInvocation(history, invocationId))
              else old(TrackedMarks())
    {
      if !resumable { return; }
      var events := OfInvocation(history, invocationId);
      for i := 0 to |events|
        invariant TrackedMarks() == Replay(old(TrackedMarks()), events[..i])
      {
        var event := events[i];
        assert events[..i + 1][..i] == events[..i];
        if event.actions.endOfAgent {
          SetAgentState(Key(event), None, true);
        } else if event.actions.agentState.Some? {
          SetAgentState(Key(event), event.actions.agentState, false);
        } else if event.author != "user" && event.content.Some? && Key(event) !in agentStates {
          SetAgentState(Key(event), Some(map[]), false);
        }
      }
      assert events[..|events|] == events;
    }
  }
}
