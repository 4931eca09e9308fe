/** State changes in flight: a context's pending delta, what each child of a run reads, and what is persisted. */
module InFlight {
  import opened Wrappers
  import opened Events
  import opened Contexts
  import opened AgentStates
  import opened Orchestration
  import SequentialAgent
  import LoopAgent
  import opened SessionStore

  /** `State`: the current values together with the delta still to be committed. */
  class State {
    var value: StateMap
    var delta: StateMap

    constructor (value: StateMap, delta: StateMap)
      ensures this.value == value && this.delta == delta
    {
      this.value, this.delta := value, delta;
    }

    /** The values are those the state was opened on, with the pending delta applied. */
    ghost predicate Tracks(base: StateMap)
      reads this
    {
      value == base + delta
    }

    function Lookup(key: string): (r: Option<Value>)
      reads this
      ensures forall base :: Tracks(base) ==> r == Get(value, key)
    {
      if key in delta then Some(delta[key]) else Get(value, key)
    }

    predicate Contains(key: string)
      reads this
    {
      key in value || key in delta
    }

    function ToMap(): (m: StateMap)
      reads this
      ensures forall base :: Tracks(base) ==> m == base + delta == value
    {
      value + delta
    }

    method Set(key: string, v: Value)
      modifies this
      ensures value == old(value)[key := v] && delta == old(delta)[key := v]
      ensures forall base :: old(Tracks(base)) ==> Tracks(base)
    {
      value, delta := value[key := v], delta[key := v];
    }

    method SetDefault(key: string, default: Value) returns (v: Value)
      modifies this
      ensures old(Contains(key)) ==> Some(v) == old(Lookup(key)) && value == old(value) && delta == old(delta)
      ensures !old(Contains(key)) ==>
                v == default && value == old(value)[key := v] && delta == old(delta)[key := v]
      ensures forall base :: old(Tracks(base)) ==> Tracks(base)
    {
      if Contains(key) {
        v := Lookup(key).value;
      } else {
        v := default;
        Set(key, v);
      }
    }

    method Update(more: StateMap)
      modifies this
      ensures value == old(value) + more && delta == old(delta) + more
      ensures forall base :: old(Tracks(base)) ==> Tracks(base)
    {
      value, delta := value + more, delta + more;
    }

    /** Hands the delta over and starts a new one, which is then tracked from the current values. */
    method TakeDelta() returns (taken: StateMap)
      modifies this
      ensures taken == old(delta) && delta == map[] && value == old(value)
      ensures Tracks(value) && forall base :: old(Tracks(base)) ==> value == base + taken
    {
      taken, delta := delta, map[];
    }
  }

  /** `Context`, as far as its state goes: opened on a session's state, closed into event actions. */
  class Context {
    const base: StateMap
    const state: State
    var eventActions: EventActions

    constructor (sessionState: StateMap)
      ensures base == sessionState && fresh(state) && state.value == base && state.delta == map[]
      ensures state.Tracks(base) && eventActions == NO_ACTIONS
    {
      base := sessionState;
      state := new State(sessionState, map[]);
      eventActions := NO_ACTIONS;
    }

    /** The pending delta, and only that, goes into the resulting actions; see `ActionsComplete`. */
    method IntoActions() returns (actions: EventActions)
      modifies this`eventActions
      ensures actions == old(eventActions).(stateDelta := state.delta)
    {
      eventActions := eventActions.(stateDelta := state.delta);
      actions := eventActions;
    }
  }

  // ----- A context's whole life -----

  datatype StateOp =
    | SetOp(key: string, v: Value)
    | SetDefaultOp(key: string, default: Value)
    | UpdateOp(more: StateMap)
    | TakeDeltaOp

  /** A state as a value; `taken` adds up the deltas handed over before the context was closed. */
  datatype Pending = Pending(value: StateMap, delta: StateMap, taken: StateMap)

  function Opened(base: StateMap): Pending {
    Pending(base, map[], map[])
  }

  function Write(p: Pending, more: StateMap): Pending {
    p.(value := p.value + more, delta := p.delta + more)
  }

  function Perform(p: Pending, op: StateOp): Pending {
    match op
    case SetOp(key, v) => Write(p, map[key := v])
    case SetDefaultOp(key, default) =>
      if key in p.value || key in p.delta then p else Write(p, map[key := default])
    case UpdateOp(more) => Write(p, more)
    case TakeDeltaOp => p.(delta := map[], taken := p.taken + p.delta)
  }

  function PerformAll(p: Pending, ops: seq<StateOp>): Pending {
    if ops == [] then p else Perform(PerformAll(p, ops[..|ops| - 1]), ops[|ops| - 1])
  }

  /** Nothing written is lost or invented: the values are the base, what was handed over, and what is pending. */
  lemma {:induction false} NothingLost(base: StateMap, ops: seq<StateOp>)
    ensures var p := PerformAll(Opened(base), ops);
            p.value == base + p.taken + p.delta
  {
    if ops != [] {
      var p := PerformAll(Opened(base), ops[..|ops| - 1]);
      NothingLost(base, ops[..|ops| - 1]);
      match ops[|ops| - 1]
      case SetOp(key, v) => WritesKeep(base, p, map[key := v]);
      case SetDefaultOp(key, default) => WritesKeep(base, p, map[key := default]);
      case UpdateOp(more) => WritesKeep(base, p, more);
      case TakeDeltaOp => assert base + (p.taken + p.delta) + map[] == base + p.taken + p.delta;
    }
  }

  lemma WritesKeep(base: StateMap, p: Pending, more: StateMap)
    requires p.value == base + p.taken + p.delta
    ensures var q := Write(p, more);
            q.value == base + q.taken + q.delta
  {
  }

  lemma {:induction false} NothingTaken(base: StateMap, ops: seq<StateOp>)
    requires TakeDeltaOp !in ops
    ensures PerformAll(Opened(base), ops).taken == map[]
  {
    if ops != [] {
      NothingTaken(base, ops[..|ops| - 1]);
    }
  }

  /** Every entry handed over early is written again afterwards, or is what the session held already. */
  ghost predicate TakenRecovered(base: StateMap, p: Pending) {
    forall key :: key in p.taken && key !in p.delta ==> Get(base, key) == Some(p.taken[key])
  }

  /**
   * Whatever is done to the state of a context, its actions applied to the session state it was opened
   * on give its final view exactly when every entry that was handed over early is written again or
   * changed nothing; so they always do when nothing is handed over.
   */
  lemma ActionsComplete(base: StateMap, ops: seq<StateOp>)
    ensures var p := PerformAll(Opened(base), ops);
            base + p.delta == p.value <==> TakenRecovered(base, p)
    ensures TakeDeltaOp !in ops ==> base + PerformAll(Opened(base), ops).delta == PerformAll(Opened(base), ops).value
  {
    var p := PerformAll(Opened(base), ops);
    NothingLost(base, ops);
    if TakenRecovered(base, p) {
      assert base + p.delta == p.value;
    } else {
      var key :| key in p.taken && key !in p.delta && Get(base, key) != Some(p.taken[key]);
      assert Get(p.value, key) == Some(p.taken[key]) && Get(base + p.delta, key) == Get(base, key);
    }
    if TakeDeltaOp !in ops {
      NothingTaken(base, ops);
    }
  }

  /** An entry set and then handed over is missing from the actions of its context. */
  lemma TakenEntryIsMissing(base: StateMap, key: string, v: Value)
    requires Get(base, key) != Some(v)
    ensures var p := PerformAll(Opened(base), [SetOp(key, v), TakeDeltaOp]);
            base + p.delta == base != p.value && p.taken == map[key := v]
  {
    var p := Opened(base);
    var first, ops := [SetOp(key, v)], [SetOp(key, v), TakeDeltaOp];
    assert PerformAll(p, []) == p;
    assert first[..0] == [] && first[0] == SetOp(key, v);
    assert PerformAll(p, first) == Write(p, map[key := v]);
    assert ops[..1] == first && ops[1] == TakeDeltaOp;
    assert PerformAll(p, ops).value == base + map[key := v];
    assert (base + map[key := v])[key] == v;
  }

  /** A context opened on a session's state, used in any way, and closed. */
  method UseContext(sessionState: StateMap, ops: seq<StateOp>)
    returns (actions: EventActions, view: StateMap, taken: seq<StateMap>)
    ensures var p := PerformAll(Opened(sessionState), ops);
            actions == NO_ACTIONS.(stateDelta := p.delta) && view == p.value && Sum(taken) == p.taken
  {
    var context := new Context(sessionState);
    var state := context.state;
    taken := [];
    for i := 0 to |ops|
      invariant context.eventActions == NO_ACTIONS
      invariant PerformAll(Opened(sessionState), ops[..i]) == Pending(state.value, state.delta, Sum(taken))
    {
      assert ops[..i + 1][..|ops[..i + 1]| - 1] == ops[..i];
      match ops[i]
      case SetOp(key, v) => SetIsUpdate(state.value, state.delta, key, v); state.Set(key, v);
      case SetDefaultOp(key, default) =>
        SetIsUpdate(state.value, state.delta, key, default);
        var _ := state.SetDefault(key, default);
      case UpdateOp(more) => state.Update(more);
      case TakeDeltaOp =>
        var delta := state.TakeDelta();
        assert (taken + [delta])[..|taken|] == taken;
        taken := taken + [delta];
    }
    assert ops[..|ops|] == ops;
    NothingLost(sessionState, ops);
    view := state.ToMap();
    assert view == state.value;
    actions := context.IntoActions();
  }

  lemma SetIsUpdate(value: StateMap, delta: StateMap, key: string, v: Value)
    ensures value[key := v] == value + map[key := v] && delta[key := v] == delta + map[key := v]
  {
  }

  function Sum(deltas: seq<StateMap>): StateMap {
    if deltas == [] then map[] else Sum(deltas[..|deltas| - 1]) + deltas[|deltas| - 1]
  }

  // ----- What each child of a run reads -----

  /** Every run starts from the state its turn was opened on, with everything emitted before it applied. */
  ghost predicate EntriesAccumulate(a: Shell, s0: Snapshot, runs: seq<ChildRun>) {
    forall k :: 0 <= k < |runs| ==>
      runs[k].entry == ApplyDeltas(s0.sessionState, RunsEvents(a, s0, runs[..k]))
  }

  lemma EntryStep(a: Shell, w: World, s0: Snapshot, s: Snapshot, runs: seq<ChildRun>,
                  times: nat, child: nat, announced: bool)
    requires EntriesAccumulate(a, s0, runs) && Recorded(a, s0, runs, RunsEvents(a, s0, runs), s)
    requires StepChild(a, w, s, times, child, announced, |runs|).Stepped?
    ensures var step := StepChild(a, w, s, times, child, announced, |runs|);
            var runs' := runs + [step.run];
            EntriesAccumulate(a, s0, runs') && Recorded(a, s0, runs', RunsEvents(a, s0, runs'), step.after)
  {
    var runs' := runs + [StepChild(a, w, s, times, child, announced, |runs|).run];
    RecordedStep(a, w, s0, runs, RunsEvents(a, s0, runs), s, times, child, announced);
    forall k | 0 <= k < |runs'|
      ensures runs'[k].entry == ApplyDeltas(s0.sessionState, RunsEvents(a, s0, runs'[..k]))
    {
      assert runs'[..k] == runs[..k];
      assert runs[..|runs|] == runs;
    }
  }

  lemma {:induction false} SequentialEntriesFrom(a: Shell, w: World, s0: Snapshot, s: Snapshot,
                                                 i: nat, resuming: bool, runs: seq<ChildRun>)
    requires i <= |a.children|
    requires EntriesAccumulate(a, s0, runs) && Recorded(a, s0, runs, RunsEvents(a, s0, runs), s)
    ensures var log := SequentialAgent.RunFrom(a, w, s, i, resuming, runs);
            log.Log? ==> EntriesAccumulate(a, s0, log.runs)
    decreases |a.children| - i
  {
    hide *;
    if i == |a.children| {
      SequentialAgent.RunFromEnds(a, w, s, i, resuming, runs);
    } else {
      var step := StepChild(a, w, s, 0, i, !resuming && s.resumable, |runs|);
      SequentialAgent.RunFromUnfolds(a, w, s, i, resuming, runs, step);
      if step.Stepped? {
        EntryStep(a, w, s0, s, runs, 0, i, !resuming && s.resumable);
        SequentialEntriesFrom(a, w, s0, step.after, i + 1, false, runs + [step.run]);
      }
    }
  }

  /** In a sequential turn a child reads what the children before it wrote. */
  lemma SequentialEntries(a: Shell, w: World, s: Snapshot)
    ensures SequentialAgent.Turn(a, w, s).Log? ==> EntriesAccumulate(a, s, SequentialAgent.Turn(a, w, s).runs)
  {
    var state := Tracked(a, s.marks.states);
    SequentialEntriesFrom(a, w, s, s, Start(a, state).1, state.Some?, []);
  }

  lemma {:induction false} LoopEntriesFrom(a: Shell, max: Option<nat>, w: World, s0: Snapshot, s: Snapshot,
                                           times: nat, i: nat, resuming: bool, runs: seq<ChildRun>)
    requires EntriesAccumulate(a, s0, runs) && Recorded(a, s0, runs, RunsEvents(a, s0, runs), s)
    ensures var log := LoopAgent.RunFrom(a, max, w, s, times, i, resuming, runs);
            log.Log? ==> EntriesAccumulate(a, s0, log.runs)
    decreases |w.script| - |runs|
  {
    if LoopAgent.MayLoop(max, times) {
      hide *;
      var step := StepChild(a, w, s, times, i, s.resumable && !resuming, |runs|);
      LoopAgent.RunFromUnfolds(a, max, w, s, times, i, resuming, runs, step);
      if step.Stepped? {
        var runs' := runs + [step.run];
        EntryStep(a, w, s0, s, runs, times, i, s.resumable && !resuming);
        LoopEntriesFrom(a, max, w, s0, step.after, times, i + 1, false, runs');
        LoopEntriesFrom(a, max, w, s0, LoopAgent.EndRound(a, step.after), times + 1, 0, false, runs');
      }
    }
  }

  /** In a loop a child reads what all runs before it wrote, in this round and in earlier ones. */
  lemma LoopEntries(a: Shell, max: Option<nat>, w: World, s: Snapshot)
    ensures LoopAgent.Turn(a, max, w, s).Log? ==> EntriesAccumulate(a, s, LoopAgent.Turn(a, max, w, s).runs)
  {
    var state := Tracked(a, s.marks.states);
    var (times, i) := Start(a, state);
    LoopEntriesFrom(a, max, w, s, s, times, i, state.Some?, []);
  }

  // ----- What is persisted -----

  /** The session after the events of a run have been appended to it one by one. */
  function Persist(s: Session, events: seq<Event>): Session {
    if events == [] then s else ApplyEvent(Persist(s, events[..|events| - 1]), events[|events| - 1]).0
  }

  function NonPartial(events: seq<Event>): seq<Event> {
    if events == [] then []
    else
      NonPartial(events[..|events| - 1]) +
      (if IsPartial(events[|events| - 1]) then [] else [events[|events| - 1]])
  }

  /** Persisting skips partial events, and their deltas with them. */
  lemma {:induction false} PersistApplies(s: Session, events: seq<Event>)
    ensures Persist(s, events).state == ApplyDeltas(s.state, NonPartial(events))
  {
    if events != [] {
      var init, last := events[..|events| - 1], events[|events| - 1];
      PersistApplies(s, init);
      if !IsPartial(last) {
        assert (NonPartial(init) + [last])[..|NonPartial(init)|] == NonPartial(init);
      } else {
        assert NonPartial(init) + [] == NonPartial(init);
      }
    }
  }

  /** What a run's events amount to: one delta, whatever state they are applied to. */
  function Total(events: seq<Event>): StateMap {
    ApplyDeltas(map[], events)
  }

  lemma Totals(s: Session, events: seq<Event>)
    ensures Persist(s, events).state == s.state + Total(NonPartial(events))
    ensures ApplyDeltas(s.state, events) == s.state + Total(events)
  {
    PersistApplies(s, events);
    DeltasAdd(s.state, events);
    DeltasAdd(s.state, NonPartial(events));
  }

  ghost predicate Agree(s: Session, events: seq<Event>) {
    Persist(s, events).state == ApplyDeltas(s.state, events)
  }

  /** What `events` write under `key` last; the partial ones count only if `partials` says so. */
  function LastWrite(events: seq<Event>, key: string, partials: bool): Option<Value> {
    if events == [] then None
    else
      var last := events[|events| - 1];
      if key in last.actions.stateDelta && (partials || !IsPartial(last)) then Some(last.actions.stateDelta[key])
      else LastWrite(events[..|events| - 1], key, partials)
  }

  lemma {:induction false} LastWriteIsTotal(events: seq<Event>, key: string)
    ensures Get(Total(events), key) == LastWrite(events, key, true)
    ensures Get(Total(NonPartial(events)), key) == LastWrite(events, key, false)
  {
    if events != [] {
      var init, last := events[..|events| - 1], events[|events| - 1];
      LastWriteIsTotal(init, key);
      if !IsPartial(last) {
        assert (NonPartial(init) + [last])[..|NonPartial(init)|] == NonPartial(init);
      } else {
        assert NonPartial(init) + [] == NonPartial(init);
      }
    }
  }

  /** A key without a partial write is last written by an event that is not partial, if at all. */
  lemma {:induction false} NoPartialWrite(events: seq<Event>, key: string)
    requires forall i :: 0 <= i < |events| && IsPartial(events[i]) ==> key !in events[i].actions.stateDelta
    ensures LastWrite(events, key, true) == LastWrite(events, key, false)
  {
    if events != [] {
      NoPartialWrite(events[..|events| - 1], key);
    }
  }

  /**
   * Every key a partial event writes is also written by an event that is not partial, and the last of
   * those writes the value that the last of all events to write the key does.
   */
  ghost predicate PartialsConfirmed(events: seq<Event>) {
    forall i, key :: 0 <= i < |events| && IsPartial(events[i]) && key in events[i].actions.stateDelta ==>
      LastWrite(events, key, false).Some? && LastWrite(events, key, false) == LastWrite(events, key, true)
  }

  lemma {:induction false} WrittenLast(events: seq<Event>, i: nat, key: string)
    requires i < |events| && key in events[i].actions.stateDelta
    ensures LastWrite(events, key, true).Some?
  {
    var n := |events| - 1;
    if key !in events[n].actions.stateDelta {
      WrittenLast(events[..n], i, key);
    }
  }

  /**
   * A run's own session state and the persisted one agree, from whatever state they start, exactly
   * when everything its partial events write is confirmed by events that are not partial.
   */
  lemma RunAgreesWithPersistence(events: seq<Event>)
    ensures (forall s :: Agree(s, events)) <==> PartialsConfirmed(events)
  {
    var all, kept := Total(events), Total(NonPartial(events));
    if PartialsConfirmed(events) {
      forall key ensures Get(all, key) == Get(kept, key) {
        LastWriteIsTotal(events, key);
        if i :| 0 <= i < |events| && IsPartial(events[i]) && key in events[i].actions.stateDelta {
        } else {
          NoPartialWrite(events, key);
        }
      }
      SameEntries(all, kept);
      forall s ensures Agree(s, events) {
        Totals(s, events);
      }
    } else {
      var i, key :| 0 <= i < |events| && IsPartial(events[i]) && key in events[i].actions.stateDelta &&
                    !(LastWrite(events, key, false).Some? &&
                      LastWrite(events, key, false) == LastWrite(events, key, true));
      WrittenLast(events, i, key);
      LastWriteIsTotal(events, key);
      var blank := Session("", "", "", map[], [], 0);
      Totals(blank, events);
      assert blank.state + all == all && blank.state + kept == kept;
      assert !Agree(blank, events);
    }
  }

  lemma SameEntries(a: StateMap, b: StateMap)
    requires forall key :: Get(a, key) == Get(b, key)
    ensures a == b
  {
    assert forall key :: key in a <==> Get(a, key).Some?;
    assert forall key :: key in b <==> Get(b, key).Some?;
    assert forall key :: key in a ==> Get(a, key) == Some(a[key]) && Get(b, key) == Some(b[key]);
  }

  /** The run of one partial event keeps what the event writes, and the store never gets it. */
  lemma LonePartialIsLost(s: Session, e: Event, key: string, v: Value)
    requires IsPartial(e) && e.actions.stateDelta == map[key := v] && Get(s.state, key) != Some(v)
    ensures Persist(s, [e]).state == s.state
    ensures ApplyDeltas(s.state, [e]) == s.state[key := v]
    ensures !Agree(s, [e]) && !PartialsConfirmed([e])
  {
    assert [e][..0] == [];
    assert Persist(s, []) == s;
    assert [e][0] == e && LastWrite([e], key, false).None?;
  }

  /** So they agree whenever no partial event carries a delta. */
  lemma {:induction false} SilentPartials(state: StateMap, events: seq<Event>)
    requires forall i :: 0 <= i < |events| && IsPartial(events[i]) ==> events[i].actions.stateDelta == map[]
    ensures ApplyDeltas(state, events) == ApplyDeltas(state, NonPartial(events))
  {
    if events != [] {
      var init, last := events[..|events| - 1], events[|events| - 1];
      SilentPartials(state, init);
      if !IsPartial(last) {
        assert (NonPartial(init) + [last])[..|NonPartial(init)|] == NonPartial(init);
      } else {
        assert NonPartial(init) + [] == NonPartial(init);
      }
    }
  }
}
