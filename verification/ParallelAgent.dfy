/** The shell agent that runs its children side by side and drains them in completion order. */
module ParallelAgent {
  import opened Wrappers
  import opened Events
  import opened Contexts
  import opened Orchestration

  /** The agent's own name and its children's, in tree order. */
  datatype Fork = Fork(name: string, children: seq<string>)

  /**
   * One turn as it happens: how each child's task would come out if it were run to its end, the
   * order in which they complete, and the stamps of the two markers.
   */
  datatype Schedule = Schedule(outcomes: seq<LeafOutcome>, order: seq<nat>, start: Stamp, end: Stamp)

  function Ended(m: Marks, name: string): bool {
    name in m.ends && m.ends[name]
  }

  /** The children that have not already ended: exactly these are spawned. */
  function Spawned(a: Fork, m: Marks): set<nat> {
    set i | 0 <= i < |a.children| && !Ended(m, a.children[i])
  }

  ghost predicate IsOrderOf(order: seq<nat>, tasks: set<nat>) {
    (forall i :: i in order <==> i in tasks) && forall j, k :: 0 <= j < k < |order| ==> order[j] != order[k]
  }

  /** The marks at the time the children are spawned: a fresh resumable agent has marked itself running. */
  function MarksAtSpawn(a: Fork, s: Snapshot): Marks {
    if s.resumable && a.name !in s.marks.states then SetMark(s.marks, a.name, Some(map[]), false) else s.marks
  }

  /** The schedule drains each spawned task once, in some order. */
  ghost predicate Fits(a: Fork, s: Snapshot, w: Schedule) {
    IsOrderOf(w.order, Spawned(a, MarksAtSpawn(a, s)))
  }

  /** A task that was never given an outcome counts as one that failed. */
  function OutcomeOf(outcomes: seq<LeafOutcome>, i: nat): LeafOutcome {
    if i < |outcomes| then outcomes[i] else Failed
  }

  /**
   * The tasks drained, from the `j`-th completion on: all of them, or those up to the first that
   * escalates; an error on the way loses the turn.
   */
  function Drained(outcomes: seq<LeafOutcome>, order: seq<nat>, j: nat): Option<seq<nat>>
    requires j <= |order|
    decreases |order| - j
  {
    if j == |order| then Some(order)
    else
      match OutcomeOf(outcomes, order[j])
      case Failed => None
      case Produced(events) =>
        if AnyEscalates(events) then Some(order[..j + 1]) else Drained(outcomes, order, j + 1)
  }

  function Block(outcomes: seq<LeafOutcome>, i: nat): seq<Event> {
    if OutcomeOf(outcomes, i).Produced? then OutcomeOf(outcomes, i).events else []
  }

  /** The children's events, block by block. */
  function Blocks(outcomes: seq<LeafOutcome>, tasks: seq<nat>): seq<Event> {
    if tasks == [] then [] else Blocks(outcomes, tasks[..|tasks| - 1]) + Block(outcomes, tasks[|tasks| - 1])
  }

  function ForkMarker(a: Fork, s: Snapshot, stamp: Stamp): Event {
    NewEvent(stamp, s.invocationId, a.name).(branch := s.branch)
  }

  /** The marker of a resumable agent that no marker of its own precedes. */
  function Opening(a: Fork, s: Snapshot, w: Schedule): seq<Event> {
    if s.resumable && a.name !in s.marks.states then
      [ForkMarker(a, s, w.start).(actions := NO_ACTIONS.(agentState := Some(map[])))]
    else []
  }

  function Closing(a: Fork, s: Snapshot, w: Schedule, events: seq<Event>): seq<Event> {
    if !AnyPauses(s.history, events) && s.resumable then
      [ForkMarker(a, s, w.end).(actions := NO_ACTIONS.(endOfAgent := true))]
    else []
  }

  /** What a turn returns. */
  function Turn(a: Fork, s: Snapshot, w: Schedule): Result<seq<Event>, ()> {
    if a.children == [] then Ok([])
    else
      match Drained(w.outcomes, w.order, 0)
      case None => Err(())
      case Some(tasks) =>
        var events := Opening(a, s, w) + Blocks(w.outcomes, tasks);
        Ok(events + Closing(a, s, w, events))
  }

  /** The spawn loop: one task for each child that has not already ended. */
  method Spawn(a: Fork, ctx: InvocationContext) returns (tasks: set<nat>)
    ensures tasks == Spawned(a, ctx.TrackedMarks())
  {
    tasks := {};
    for i := 0 to |a.children|
      invariant forall j :: j in tasks <==> 0 <= j < i && !Ended(ctx.TrackedMarks(), a.children[j])
    {
      if a.children[i] in ctx.endOfAgents && ctx.endOfAgents[a.children[i]] {
        continue;
      }
      tasks := tasks + {i};
    }
  }

  lemma NextBlock(outcomes: seq<LeafOutcome>, order: seq<nat>, j: nat)
    requires j < |order|
    ensures Blocks(outcomes, order[..j + 1]) == Blocks(outcomes, order[..j]) + Block(outcomes, order[j])
    ensures forall i :: i in order[j..] <==> i == order[j] || i in order[j + 1..]
  {
    assert order[..j + 1][..j] == order[..j];
    assert order[j..] == [order[j]] + order[j + 1..];
  }

  lemma DistinctTail(order: seq<nat>, tasks: set<nat>, j: nat)
    requires IsOrderOf(order, tasks) && j < |order|
    ensures order[j] !in order[j + 1..]
  {
  }

  lemma StillWaiting(order: seq<nat>, j: nat)
    requires j < |order|
    ensures order[j] in order[j..]
  {
    assert order[j..][0] == order[j];
  }

  /** The drain loop: tasks are joined as they complete, and an escalation aborts those that remain. */
  method Drain(tasks: set<nat>, history: seq<Event>, initial: StateMap, w: Schedule)
    returns (r: Result<seq<Event>, ()>, state: StateMap)
    requires IsOrderOf(w.order, tasks)
    ensures var drained := Drained(w.outcomes, w.order, 0);
            if drained.None? then r.Err?
            else r == Ok(Blocks(w.outcomes, drained.value)) && state == ApplyDeltas(initial, r.value)
  {
    var pending, blocks, joined := tasks, [], 0;
    state := initial;
    while pending != {}
      invariant joined <= |w.order| && forall i :: i in pending <==> i in w.order[joined..]
      invariant blocks == Blocks(w.outcomes, w.order[..joined]) && state == ApplyDeltas(initial, blocks)
      invariant Drained(w.outcomes, w.order, 0) == Drained(w.outcomes, w.order, joined)
      decreases |w.order| - joined
    {
      var waiting :| waiting in pending;
      assert joined < |w.order|;
      var done := w.order[joined];
      pending := pending - {done};
      NextBlock(w.outcomes, w.order, joined);
      DistinctTail(w.order, tasks, joined);
      var outcome := OutcomeOf(w.outcomes, done);
      if outcome.Failed? {
        return Err(()), initial;
      }
      ApplyDeltasConcat(initial, blocks, outcome.events);
      var escalated, pauses;
      state, escalated, pauses := TakeOver(history, state, outcome.events);
      blocks, joined := blocks + outcome.events, joined + 1;
      if escalated {
        return Ok(blocks), state;
      }
    }
    if joined < |w.order| {
      StillWaiting(w.order, joined);
    }
    assert w.order[..|w.order|] == w.order;
    r := Ok(blocks);
  }

  /** A resumable agent that is not marked running marks itself so, and files it. */
  method Open(a: Fork, ctx: InvocationContext, w: Schedule) returns (opening: seq<Event>)
    modifies ctx`agentStates, ctx`endOfAgents
    ensures opening == Opening(a, old(ctx.View()), w)
    ensures ctx.TrackedMarks() == MarksAtSpawn(a, old(ctx.View()))
  {
    opening := [];
    if ctx.resumable && a.name !in ctx.agentStates {
      ctx.SetAgentState(a.name, Some(map[]), false);
      opening := [ForkMarker(a, ctx.View(), w.start).(actions := NO_ACTIONS.(agentState := Some(map[])))];
    }
  }

  /** A resumable agent marks itself ended unless an event pauses the turn. */
  method Close(a: Fork, ctx: InvocationContext, w: Schedule, events: seq<Event>, ghost s: Snapshot) returns (closing: seq<Event>)
    requires ctx.View() == s.(sessionState := ctx.sessionState, marks := ctx.TrackedMarks())
    modifies ctx`agentStates, ctx`endOfAgents
    ensures closing == Closing(a, s, w, events)
    ensures ctx.TrackedMarks() == MarksAtEnd(a, old(ctx.TrackedMarks()), s.resumable && !AnyPauses(s.history, events + closing))
  {
    closing := [];
    assert events + [] == events;
    if !AnyPauses(ctx.history, events) && ctx.resumable {
      ctx.SetAgentState(a.name, None, true);
      closing := [ForkMarker(a, ctx.View(), w.end).(actions := NO_ACTIONS.(endOfAgent := true))];
      assert (events + closing)[..|events|] == events;
    }
  }

  function MarksAtEnd(a: Fork, m: Marks, ends: bool): Marks {
    if ends then SetMark(m, a.name, None, true) else m
  }

  /** `ParallelAgent::run_async_impl`, under a schedule that drains exactly what it spawns. */
  method RunAsyncImpl(a: Fork, ctx: InvocationContext, w: Schedule) returns (r: Result<seq<Event>, ()>)
    requires Fits(a, ctx.View(), w)
    modifies ctx`sessionState, ctx`agentStates, ctx`endOfAgents
    ensures r == Turn(a, old(ctx.View()), w)
    ensures r.Ok? ==> ctx.sessionState == ApplyDeltas(old(ctx.sessionState), r.value)
    ensures r.Ok? && a.children == [] ==> ctx.TrackedMarks() == old(ctx.TrackedMarks())
    ensures r.Ok? && a.children != [] ==>
              ctx.TrackedMarks() ==
              MarksAtEnd(a, MarksAtSpawn(a, old(ctx.View())), ctx.resumable && !AnyPauses(ctx.history, r.value))
  {
    if a.children == [] {
      return Ok([]);
    }
    hide AnyPauses, ShouldPause, Drained, MarksAtSpawn, MarksAtEnd, IsOrderOf, Spawned, ApplyDeltas, Blocks;
    ghost var s := ctx.View();
    var opening := Open(a, ctx, w);
    var tasks := Spawn(a, ctx);
    var blocks, state := Drain(tasks, ctx.history, ctx.sessionState, w);
    if blocks.Err? {
      return Err(());
    }
    ctx.sessionState := state;
    var events := opening + blocks.value;
    SilentAround(s.sessionState, opening, blocks.value);
    var closing := Close(a, ctx, w, events, s);
    SilentAround(s.sessionState, events, closing);
    r := Ok(events + closing);
  }

  lemma SilentAround(state: StateMap, x: seq<Event>, y: seq<Event>)
    ensures |x| <= 1 && (x != [] ==> x[0].actions.stateDelta == map[]) ==>
              ApplyDeltas(state, x + y) == ApplyDeltas(state, y)
    ensures |y| <= 1 && (y != [] ==> y[0].actions.stateDelta == map[]) ==>
              ApplyDeltas(state, x + y) == ApplyDeltas(state, x)
  {
    ApplyDeltasConcat(state, x, y);
    assert x != [] && |x| == 1 ==> x[..0] == [];
    assert y != [] && |y| == 1 ==> y[..0] == [];
    assert |x| <= 1 && (x != [] ==> x[0].actions.stateDelta == map[]) ==> ApplyDeltas(state, x) == state;
  }

  // ----- What holds for every completion order -----

  /** Whole blocks of distinct spawned children, in completion order, up to the first that escalates. */
  lemma {:induction false} DrainedIsPrefix(outcomes: seq<LeafOutcome>, order: seq<nat>, j: nat)
    requires j <= |order|
    ensures var tasks := Drained(outcomes, order, j);
            tasks.Some? ==>
              var n := |tasks.value|;
              j <= n <= |order| && tasks.value == order[..n] &&
              (forall k :: j <= k < n ==> OutcomeOf(outcomes, order[k]).Produced?) &&
              (forall k :: j <= k < n - 1 ==> !AnyEscalates(Block(outcomes, order[k]))) &&
              (n == |order| || (n > j && AnyEscalates(Block(outcomes, order[n - 1]))))
    decreases |order| - j
  {
    hide AnyEscalates;
    if j < |order| && OutcomeOf(outcomes, order[j]).Produced? && !AnyEscalates(Block(outcomes, order[j])) {
      DrainedIsPrefix(outcomes, order, j + 1);
    } else {
      assert order[..|order|] == order;
    }
  }

  /** Nothing goes wrong and nobody escalates. */
  ghost predicate Smooth(outcomes: seq<LeafOutcome>, tasks: set<nat>) {
    forall i :: i in tasks ==> OutcomeOf(outcomes, i).Produced? && !AnyEscalates(Block(outcomes, i))
  }

  lemma {:induction false} SmoothDrainsAll(outcomes: seq<LeafOutcome>, order: seq<nat>, j: nat)
    requires j <= |order| && forall k :: 0 <= k < |order| ==>
               OutcomeOf(outcomes, order[k]).Produced? && !AnyEscalates(Block(outcomes, order[k]))
    ensures Drained(outcomes, order, j) == Some(order)
    decreases |order| - j
  {
    if j < |order| {
      SmoothDrainsAll(outcomes, order, j + 1);
    }
  }

  /** The value a block leaves under each key it sets. */
  function BlockDelta(outcomes: seq<LeafOutcome>, i: nat): StateMap {
    ApplyDeltas(map[], Block(outcomes, i))
  }

  /** No two children leave different values under the same key. */
  ghost predicate Compatible(outcomes: seq<LeafOutcome>, tasks: set<nat>) {
    forall i, j, key :: i in tasks && j in tasks && key in BlockDelta(outcomes, i) && key in BlockDelta(outcomes, j) ==>
      BlockDelta(outcomes, i)[key] == BlockDelta(outcomes, j)[key]
  }

  /** The state after draining `order`: its last block's delta on top of the state after the others. */
  lemma LastBlock(outcomes: seq<LeafOutcome>, state: StateMap, order: seq<nat>)
    requires order != []
    ensures ApplyDeltas(state, Blocks(outcomes, order)) ==
            ApplyDeltas(state, Blocks(outcomes, order[..|order| - 1])) + BlockDelta(outcomes, order[|order| - 1])
  {
    var before := Blocks(outcomes, order[..|order| - 1]);
    ApplyDeltasConcat(state, before, Block(outcomes, order[|order| - 1]));
    DeltasAdd(ApplyDeltas(state, before), Block(outcomes, order[|order| - 1]));
  }

  /** The entry under `key` is that of any block that writes it, or else the one there was. */
  ghost predicate Settled(outcomes: seq<LeafOutcome>, state: StateMap, order: seq<nat>, key: string, final: StateMap) {
    (forall i :: i in order && key in BlockDelta(outcomes, i) ==> Get(final, key) == Some(BlockDelta(outcomes, i)[key])) &&
    ((forall i :: i in order ==> key !in BlockDelta(outcomes, i)) ==> Get(final, key) == Get(state, key))
  }

  lemma SettledStep(outcomes: seq<LeafOutcome>, state: StateMap, order: seq<nat>, last: nat, key: string, before: StateMap)
    requires Settled(outcomes, state, order, key, before) && Compatible(outcomes, set i <- order + [last])
    ensures Settled(outcomes, state, order + [last], key, before + BlockDelta(outcomes, last))
  {
    hide BlockDelta;
    assert last in order + [last];
    if key in BlockDelta(outcomes, last) {
      forall i | i in order + [last] && key in BlockDelta(outcomes, i)
        ensures BlockDelta(outcomes, i)[key] == BlockDelta(outcomes, last)[key]
      {
        assert i in (set i <- order + [last]) && last in (set i <- order + [last]);
      }
    } else {
      assert Get(before + BlockDelta(outcomes, last), key) == Get(before, key);
    }
  }

  /** With compatible blocks an entry of the final state does not depend on who wrote it last. */
  lemma {:induction false} CompatibleEntry(outcomes: seq<LeafOutcome>, state: StateMap, order: seq<nat>, key: string)
    requires Compatible(outcomes, set i <- order)
    ensures Settled(outcomes, state, order, key, ApplyDeltas(state, Blocks(outcomes, order)))
    decreases |order|
  {
    hide BlockDelta, Block;
    if order != [] {
      var init, last := order[..|order| - 1], order[|order| - 1];
      assert order == init + [last];
      assert (set i <- init) <= (set i <- order);
      hide Blocks, ApplyDeltas, Settled;
      CompatibleEntry(outcomes, state, init, key);
      LastBlock(outcomes, state, order);
      SettledStep(outcomes, state, init, last, key, ApplyDeltas(state, Blocks(outcomes, init)));
    }
  }

  /** The final session state of a turn that drains `order` from `state`. */
  function FinalState(outcomes: seq<LeafOutcome>, state: StateMap, order: seq<nat>): StateMap {
    ApplyDeltas(state, Blocks(outcomes, order))
  }

  ghost predicate OrderFree(outcomes: seq<LeafOutcome>, state: StateMap, tasks: set<nat>) {
    forall order, order' :: IsOrderOf(order, tasks) && IsOrderOf(order', tasks) ==>
      FinalState(outcomes, state, order) == FinalState(outcomes, state, order')
  }

  lemma CompatibleIsOrderFree(outcomes: seq<LeafOutcome>, state: StateMap, order: seq<nat>, order': seq<nat>, tasks: set<nat>)
    requires Compatible(outcomes, tasks) && IsOrderOf(order, tasks) && IsOrderOf(order', tasks)
    ensures FinalState(outcomes, state, order) == FinalState(outcomes, state, order')
  {
    var l, r := FinalState(outcomes, state, order), FinalState(outcomes, state, order');
    assert (set i <- order) == tasks == (set i <- order');
    forall key ensures Get(l, key) == Get(r, key) {
      CompatibleEntry(outcomes, state, order, key);
      CompatibleEntry(outcomes, state, order', key);
      if i :| i in tasks && key in BlockDelta(outcomes, i) {
        assert i in order && i in order';
      }
    }
    forall key ensures key in l <==> key in r ensures key in l ==> l[key] == r[key] {
      assert Get(l, key) == Get(r, key);
    }
  }

  lemma {:induction false} SomeOrder(tasks: set<nat>) returns (order: seq<nat>)
    ensures IsOrderOf(order, tasks)
    decreases |tasks|
  {
    if tasks == {} {
      order := [];
    } else {
      var i :| i in tasks;
      var rest := SomeOrder(tasks - {i});
      order := rest + [i];
    }
  }

  /**
   * With no error and no escalation the final state is the same for all completion orders exactly
   * when no two children leave different values under the same key.
   */
  lemma OrderFreeIffCompatible(outcomes: seq<LeafOutcome>, state: StateMap, tasks: set<nat>)
    ensures OrderFree(outcomes, state, tasks) <==> Compatible(outcomes, tasks)
  {
    if Compatible(outcomes, tasks) {
      forall order, order' | IsOrderOf(order, tasks) && IsOrderOf(order', tasks)
        ensures FinalState(outcomes, state, order) == FinalState(outcomes, state, order')
      {
        CompatibleIsOrderFree(outcomes, state, order, order', tasks);
      }
    } else {
      var i, j, key :| i in tasks && j in tasks && key in BlockDelta(outcomes, i) && key in BlockDelta(outcomes, j) &&
                       BlockDelta(outcomes, i)[key] != BlockDelta(outcomes, j)[key];
      var x := EndingIn(tasks, i);
      var y := EndingIn(tasks, j);
      LastBlock(outcomes, state, x);
      LastBlock(outcomes, state, y);
      assert FinalState(outcomes, state, x)[key] != FinalState(outcomes, state, y)[key];
    }
  }

  lemma EndingIn(tasks: set<nat>, i: nat) returns (order: seq<nat>)
    requires i in tasks
    ensures IsOrderOf(order, tasks) && order != [] && order[|order| - 1] == i
  {
    var rest := SomeOrder(tasks - {i});
    order := rest + [i];
  }

  /** Any two orders of the same tasks collect the same events, as a multiset. */
  lemma {:induction false} SameEvents(outcomes: seq<LeafOutcome>, order: seq<nat>, order': seq<nat>, tasks: set<nat>)
    requires IsOrderOf(order, tasks) && IsOrderOf(order', tasks)
    ensures multiset(Blocks(outcomes, order)) == multiset(Blocks(outcomes, order'))
    decreases |order|
  {
    if order == [] {
      OrderLength(order, tasks);
      OrderLength(order', tasks);
    } else {
      var last := order[|order| - 1];
      assert last in order;
      var k :| 0 <= k < |order'| && order'[k] == last;
      var init, rest := order[..|order| - 1], order'[..k] + order'[k + 1..];
      assert order == init + [last];
      MoveLast(outcomes, order', k);
      OrderWithout(order, |order| - 1, tasks);
      OrderWithout(order', k, tasks);
      assert init + order[|order|..] == init;
      SameEvents(outcomes, init, rest, tasks - {last});
    }
  }

  lemma OrderWithout(order: seq<nat>, k: nat, tasks: set<nat>)
    requires IsOrderOf(order, tasks) && k < |order|
    ensures IsOrderOf(order[..k] + order[k + 1..], tasks - {order[k]})
  {
    var rest := order[..k] + order[k + 1..];
    forall i ensures i in rest <==> i in tasks - {order[k]} {
      if i in rest {
        var x :| 0 <= x < |rest| && rest[x] == i;
        assert order[if x < k then x else x + 1] == i;
      }
      if i in tasks - {order[k]} {
        var x :| 0 <= x < |order| && order[x] == i;
        assert rest[if x < k then x else x - 1] == i;
      }
    }
  }

  lemma {:induction false} OrderLength(order: seq<nat>, tasks: set<nat>)
    requires IsOrderOf(order, tasks)
    ensures |order| == |tasks|
    decreases |order|
  {
    if order == [] {
      assert tasks == {};
    } else {
      OrderWithout(order, 0, tasks);
      OrderLength(order[..0] + order[1..], tasks - {order[0]});
    }
  }

  lemma BlocksExtend(outcomes: seq<LeafOutcome>, tasks: seq<nat>, i: nat)
    ensures Blocks(outcomes, tasks + [i]) == Blocks(outcomes, tasks) + Block(outcomes, i)
  {
    hide Block;
    assert (tasks + [i])[..|tasks|] == tasks;
  }

  /** Taking the `k`-th block out and putting it last keeps the multiset of events. */
  lemma {:induction false} MoveLast(outcomes: seq<LeafOutcome>, order: seq<nat>, k: nat)
    requires k < |order|
    ensures multiset(Blocks(outcomes, order)) ==
            multiset(Blocks(outcomes, order[..k] + order[k + 1..])) + multiset(Block(outcomes, order[k]))
    decreases |order|
  {
    hide *;
    var n := |order| - 1;
    var init, last := order[..n], order[n];
    assert order == init + [last];
    BlocksExtend(outcomes, init, last);
    if k == n {
      assert order[..k] + order[k + 1..] == init;
    } else {
      MoveLast(outcomes, init, k);
      var rest := init[..k] + init[k + 1..];
      assert order[..k] + order[k + 1..] == rest + [last];
      BlocksExtend(outcomes, rest, last);
    }
  }

  // ----- Whole turns -----

  /** The child of this index gets a task: it has not already ended, or bears the name of a shell just marked running. */
  ghost predicate GetsTask(a: Fork, s: Snapshot, i: int) {
    0 <= i < |a.children| &&
    var name := a.children[i];
    (!(name in s.marks.ends && s.marks.ends[name]) || (name == a.name && s.resumable && a.name !in s.marks.states))
  }

  lemma SpawnedExact(a: Fork, s: Snapshot)
    ensures forall i: nat :: i in Spawned(a, MarksAtSpawn(a, s)) <==> GetsTask(a, s, i)
  {
  }

  /** Markers never pause a turn, so the events of the children decide. */
  lemma {:induction false} BlocksDecide(history: seq<Event>, opening: seq<Event>, blocks: seq<Event>)
    requires forall i :: 0 <= i < |opening| ==> opening[i].longRunningToolIds.None?
    ensures AnyPauses(history, opening + blocks) <==> exists i :: 0 <= i < |blocks| && ShouldPause(history, blocks[i])
  {
    var events := opening + blocks;
    PausesByMembership(history, events);
    if i :| 0 <= i < |events| && ShouldPause(history, events[i]) {
      assert i >= |opening| && blocks[i - |opening|] == events[i];
    }
    if i :| 0 <= i < |blocks| && ShouldPause(history, blocks[i]) {
      assert events[|opening| + i] == blocks[i];
    }
  }

  /** Each block stands whole, and after those of the tasks before it. */
  lemma {:induction false} BlockAt(outcomes: seq<LeafOutcome>, tasks: seq<nat>, k: nat)
    requires k < |tasks|
    ensures var block := if OutcomeOf(outcomes, tasks[k]).Produced? then OutcomeOf(outcomes, tasks[k]).events else [];
            Blocks(outcomes, tasks[..k]) + block <= Blocks(outcomes, tasks)
    decreases |tasks|
  {
    var n := |tasks| - 1;
    if k < n {
      BlockAt(outcomes, tasks[..n], k);
      assert tasks[..n][..k] == tasks[..k];
    }
  }

  /**
   * A turn that succeeds returns its opening marker, then whole blocks of children that had not
   * already ended, and nothing after the first block that escalates but the closing marker.
   */
  lemma TurnShape(a: Fork, s: Snapshot, w: Schedule)
    requires Fits(a, s, w) && a.children != [] && Turn(a, s, w).Ok?
    ensures exists opening, n, closing :: 0 <= n <= |w.order| && HasShape(a, s, w, opening, n, closing)
  {
    DrainedIsPrefix(w.outcomes, w.order, 0);
    var n := |Drained(w.outcomes, w.order, 0).value|;
    SpawnedExact(a, s);
    forall k | 0 <= k < n ensures GetsTask(a, s, w.order[k]) {
      assert w.order[k] in w.order;
    }
    HasThatShape(a, s, w, n);
  }

  /**
   * The turn returns the opening marker of a resumable agent not marked running, the blocks of the
   * first `n` children to complete, all of them or those up to the first that escalates, and the
   * closing marker of a resumable agent none of whose children's events pauses.
   */
  ghost predicate HasShape(a: Fork, s: Snapshot, w: Schedule, opening: seq<Event>, n: nat, closing: seq<Event>)
    requires n <= |w.order|
  {
    var blocks := Blocks(w.outcomes, w.order[..n]);
    Turn(a, s, w) == Ok(opening + blocks + closing) &&
    |opening| == (if s.resumable && a.name !in s.marks.states then 1 else 0) &&
    |closing| == (if s.resumable && !(exists i :: 0 <= i < |blocks| && ShouldPause(s.history, blocks[i])) then 1 else 0) &&
    (opening != [] ==>
       IsMarker(opening[0], a.name, s, w.start) && opening[0].actions.agentState == Some(map[]) && !opening[0].actions.endOfAgent) &&
    (closing != [] ==>
       IsMarker(closing[0], a.name, s, w.end) && closing[0].actions.agentState.None? && closing[0].actions.endOfAgent) &&
    (forall k :: 0 <= k < n ==> GetsTask(a, s, w.order[k]) && OutcomeOf(w.outcomes, w.order[k]).Produced?) &&
    (forall k :: 0 <= k < n - 1 ==> !AnyEscalates(Block(w.outcomes, w.order[k]))) &&
    (n < |w.order| ==> n > 0 && AnyEscalates(Block(w.outcomes, w.order[n - 1])))
  }

  lemma MarkersAre(a: Fork, s: Snapshot, w: Schedule, events: seq<Event>)
    ensures var opening, closing := Opening(a, s, w), Closing(a, s, w, events);
            |opening| == (if s.resumable && a.name !in s.marks.states then 1 else 0) &&
            |closing| == (if s.resumable && !AnyPauses(s.history, events) then 1 else 0) &&
            (opening != [] ==>
               IsMarker(opening[0], a.name, s, w.start) && opening[0].actions.agentState == Some(map[]) &&
               !opening[0].actions.endOfAgent) &&
            (closing != [] ==>
               IsMarker(closing[0], a.name, s, w.end) && closing[0].actions.agentState.None? &&
               closing[0].actions.endOfAgent)
  {
    hide AnyPauses;
  }

  lemma HasThatShape(a: Fork, s: Snapshot, w: Schedule, n: nat)
    requires a.children != [] && n <= |w.order| && Drained(w.outcomes, w.order, 0) == Some(w.order[..n])
    requires forall k :: 0 <= k < n ==> GetsTask(a, s, w.order[k]) && OutcomeOf(w.outcomes, w.order[k]).Produced?
    requires forall k :: 0 <= k < n - 1 ==> !AnyEscalates(Block(w.outcomes, w.order[k]))
    requires n < |w.order| ==> n > 0 && AnyEscalates(Block(w.outcomes, w.order[n - 1]))
    ensures var opening, blocks := Opening(a, s, w), Blocks(w.outcomes, w.order[..n]);
            HasShape(a, s, w, opening, n, Closing(a, s, w, opening + blocks))
  {
    var opening, blocks := Opening(a, s, w), Blocks(w.outcomes, w.order[..n]);
    BlocksDecide(s.history, opening, blocks);
    MarkersAre(a, s, w, opening + blocks);
    assert Turn(a, s, w) == Ok(opening + blocks + Closing(a, s, w, opening + blocks));
    hide Turn, Opening, Closing, IsMarker, AnyPauses, AnyEscalates, ShouldPause, GetsTask, Blocks, Block, OutcomeOf;
  }

  /** The `j`-th task to complete fails, and none before it failed or escalated. */
  ghost predicate FailsAt(outcomes: seq<LeafOutcome>, order: seq<nat>, j: int) {
    0 <= j < |order| && OutcomeOf(outcomes, order[j]).Failed? &&
    forall k :: 0 <= k < j ==> OutcomeOf(outcomes, order[k]).Produced? && !AnyEscalates(Block(outcomes, order[k]))
  }

  lemma {:induction false} DrainFails(outcomes: seq<LeafOutcome>, order: seq<nat>, j: nat)
    requires j <= |order|
    requires forall k :: 0 <= k < j ==> OutcomeOf(outcomes, order[k]).Produced? && !AnyEscalates(Block(outcomes, order[k]))
    ensures Drained(outcomes, order, j).None? <==> exists f :: FailsAt(outcomes, order, f)
    decreases |order| - j
  {
    hide AnyEscalates;
    if j < |order| {
      if OutcomeOf(outcomes, order[j]).Failed? {
        assert FailsAt(outcomes, order, j);
      } else if !AnyEscalates(Block(outcomes, order[j])) {
        DrainFails(outcomes, order, j + 1);
      }
    }
  }

  /** A turn is lost exactly if some child fails before any that completed earlier has escalated. */
  lemma TurnFails(a: Fork, s: Snapshot, w: Schedule)
    ensures Turn(a, s, w).Err? <==> a.children != [] && exists j :: FailsAt(w.outcomes, w.order, j)
  {
    DrainFails(w.outcomes, w.order, 0);
    hide Drained, FailsAt;
  }

  lemma PausesByMultiset(history: seq<Event>, x: seq<Event>, y: seq<Event>)
    requires multiset(x) == multiset(y)
    ensures AnyPauses(history, x) ==> AnyPauses(history, y)
  {
    PausesByMembership(history, x);
    PausesByMembership(history, y);
    if i :| 0 <= i < |x| && ShouldPause(history, x[i]) {
      assert x[i] in multiset(y);
      var j :| 0 <= j < |y| && y[j] == x[i];
    }
  }

  /** With no error and no escalation, every completion order returns the same events and pauses alike. */
  lemma OrderKeepsEvents(a: Fork, s: Snapshot, w: Schedule, w': Schedule)
    requires Fits(a, s, w) && Fits(a, s, w') && w' == w.(order := w'.order)
    requires Smooth(w.outcomes, Spawned(a, MarksAtSpawn(a, s)))
    ensures Turn(a, s, w).Ok? && Turn(a, s, w').Ok?
    ensures multiset(Turn(a, s, w).value) == multiset(Turn(a, s, w').value)
  {
    if a.children != [] {
      var x, y := Blocks(w.outcomes, w.order), Blocks(w.outcomes, w'.order);
      SmoothOrder(a, s, w);
      SmoothOrder(a, s, w');
      SameEvents(w.outcomes, w.order, w'.order, Spawned(a, MarksAtSpawn(a, s)));
      var opening := Opening(a, s, w);
      PausesByMultiset(s.history, opening + x, opening + y);
      PausesByMultiset(s.history, opening + y, opening + x);
    }
  }

  /** The session state a turn leaves behind when it succeeds. */
  function StateAfter(a: Fork, s: Snapshot, w: Schedule): StateMap
    requires Turn(a, s, w).Ok?
  {
    ApplyDeltas(s.sessionState, Turn(a, s, w).value)
  }

  lemma SmoothTurnState(a: Fork, s: Snapshot, w: Schedule)
    requires Fits(a, s, w) && Smooth(w.outcomes, Spawned(a, MarksAtSpawn(a, s)))
    ensures Turn(a, s, w).Ok? && StateAfter(a, s, w) == FinalState(w.outcomes, s.sessionState, w.order)
  {
    SmoothOrder(a, s, w);
    if a.children == [] {
      OrderLength(w.order, {});
    } else {
      var opening, blocks := Opening(a, s, w), Blocks(w.outcomes, w.order);
      SilentAround(s.sessionState, opening, blocks);
      SilentAround(s.sessionState, opening + blocks, Closing(a, s, w, opening + blocks));
    }
  }

  /**
   * With no error and no escalation, a turn succeeds in every completion order, and leaves the same
   * session state in all of them exactly when no two children leave different values under one key.
   */
  lemma TurnStateOrderFree(a: Fork, s: Snapshot, outcomes: seq<LeafOutcome>, start: Stamp, end: Stamp)
    requires Smooth(outcomes, Spawned(a, MarksAtSpawn(a, s)))
    ensures var tasks := Spawned(a, MarksAtSpawn(a, s));
            (forall order :: IsOrderOf(order, tasks) ==> Turn(a, s, Schedule(outcomes, order, start, end)).Ok?) &&
            ((forall order, order' :: IsOrderOf(order, tasks) && IsOrderOf(order', tasks) ==>
                StateAfter(a, s, Schedule(outcomes, order, start, end)) ==
                StateAfter(a, s, Schedule(outcomes, order', start, end))) <==>
             Compatible(outcomes, tasks))
  {
    var tasks := Spawned(a, MarksAtSpawn(a, s));
    hide Turn, FinalState, Compatible, Spawned, MarksAtSpawn, Smooth, StateAfter, IsOrderOf;
    forall order | IsOrderOf(order, tasks)
      ensures Turn(a, s, Schedule(outcomes, order, start, end)).Ok?
      ensures StateAfter(a, s, Schedule(outcomes, order, start, end)) == FinalState(outcomes, s.sessionState, order)
    {
      SmoothTurnState(a, s, Schedule(outcomes, order, start, end));
    }
    OrderFreeIffCompatible(outcomes, s.sessionState, tasks);
  }

  lemma SmoothOrder(a: Fork, s: Snapshot, w: Schedule)
    requires Fits(a, s, w) && Smooth(w.outcomes, Spawned(a, MarksAtSpawn(a, s)))
    ensures Drained(w.outcomes, w.order, 0) == Some(w.order)
  {
    forall k | 0 <= k < |w.order|
      ensures OutcomeOf(w.outcomes, w.order[k]).Produced? && !AnyEscalates(Block(w.outcomes, w.order[k]))
    {
      assert w.order[k] in w.order;
    }
    SmoothDrainsAll(w.outcomes, w.order, 0);
  }
}
