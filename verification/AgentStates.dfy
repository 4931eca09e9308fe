/** How the sequential and the loop agent write their position into an agent state, and read it back. */
module AgentStates {
  import opened Wrappers
  import opened Events

  const CURRENT_SUB_AGENT_KEY := "current_sub_agent"
  const TIMES_LOOPED_KEY := "times_looped"
  const U32_LIMIT := 0x1_0000_0000

  datatype Kind = Sequential | Loop

  /** A shell agent: what it is, its own name and its children's names, in tree order. */
  datatype Shell = Shell(kind: Kind, name: string, children: seq<string>)

  /** The tracked position; a sequential agent tracks no count. */
  datatype AgentState = AgentState(currentSubAgent: string, timesLooped: nat)

  function ToRaw(kind: Kind, state: AgentState): StateMap {
    match kind
    case Sequential => map[CURRENT_SUB_AGENT_KEY := Text(state.currentSubAgent)]
    case Loop =>
      map[CURRENT_SUB_AGENT_KEY := Text(state.currentSubAgent), TIMES_LOOPED_KEY := Int(state.timesLooped)]
  }

  /**
   * A current sub-agent that is no text reads as none; a count that is missing, negative or no
   * integer reads as zero, and one past 32 bits is truncated.
   */
  function FromRaw(kind: Kind, raw: StateMap): AgentState {
    var current :=
      if CURRENT_SUB_AGENT_KEY in raw && raw[CURRENT_SUB_AGENT_KEY].Text? then raw[CURRENT_SUB_AGENT_KEY].s else "";
    var times :=
      if kind.Loop? && TIMES_LOOPED_KEY in raw && raw[TIMES_LOOPED_KEY].Int? && raw[TIMES_LOOPED_KEY].i >= 0 then
        raw[TIMES_LOOPED_KEY].i % U32_LIMIT
      else 0;
    AgentState(current, times)
  }

  /** The state a context tracks for the agent, decoded. */
  function Tracked(a: Shell, states: map<string, StateMap>): Option<AgentState> {
    if a.name in states then Some(FromRaw(a.kind, states[a.name])) else None
  }

  function Encode(a: Shell, times: nat, child: nat): StateMap {
    ToRaw(a.kind, AgentState(if child < |a.children| then a.children[child] else "", times))
  }

  /** The first index at which `name` occurs, if any. */
  function Position(names: seq<string>, name: string): Option<nat> {
    if names == [] then None
    else if names[0] == name then Some(0)
    else
      match Position(names[1..], name)
      case None => None
      case Some(i) => Some(i + 1)
  }

  /**
   * Where to start: afresh, at the tracked child, or afresh again if that child is gone.  With no
   * tracked child a sequential agent has nothing left to do and a loop starts its round over.
   */
  function Start(a: Shell, state: Option<AgentState>): (start: (nat, nat))
    ensures start.1 <= |a.children|
    ensures a.kind.Loop? && a.children != [] ==> start.1 < |a.children|
  {
    match state
    case None => (0, 0)
    case Some(tracked) =>
      PositionIsFirst(a.children, tracked.currentSubAgent);
      if tracked.currentSubAgent == "" then (tracked.timesLooped, if a.kind.Sequential? then |a.children| else 0)
      else match Position(a.children, tracked.currentSubAgent)
           case None => (tracked.timesLooped, 0)
           case Some(i) => (tracked.timesLooped, i)
  }

  lemma {:induction false} PositionIsFirst(names: seq<string>, name: string)
    ensures match Position(names, name)
            case None => name !in names
            case Some(i) => i < |names| && names[i] == name && forall j :: 0 <= j < i ==> names[j] != name
  {
    if names != [] && names[0] != name {
      PositionIsFirst(names[1..], name);
      match Position(names[1..], name)
      case None =>
      case Some(i) =>
        forall j | 0 <= j < i + 1 ensures names[j] != name {
          assert j > 0 ==> names[j] == names[1..][j - 1];
        }
    }
  }

  /** Where a turn starts, for any tracked state: at the first child with the tracked name, if there is one. */
  lemma StartExact(a: Shell, state: Option<AgentState>)
    ensures state.None? ==> Start(a, state) == (0, 0)
    ensures state.Some? ==>
              var name, i := state.value.currentSubAgent, Start(a, state).1;
              Start(a, state).0 == state.value.timesLooped &&
              (name == "" && a.kind.Sequential? ==> i == |a.children|) &&
              (name == "" && a.kind.Loop? ==> i == 0) &&
              (name != "" && name !in a.children ==> i == 0) &&
              (name != "" && name in a.children ==>
                 i < |a.children| && a.children[i] == name && name !in a.children[..i])
  {
    if state.Some? {
      PositionIsFirst(a.children, state.value.currentSubAgent);
    }
  }

  /** A recorded position is restored exactly when its child's name is the first of its kind and its count fits. */
  lemma RestoresPosition(a: Shell, times: nat, child: nat)
    requires child < |a.children| && a.children[child] != ""
    requires a.kind.Sequential? ==> times == 0
    ensures Start(a, Some(FromRaw(a.kind, Encode(a, times, child)))) == (times, child)
            <==> times < U32_LIMIT && a.children[child] !in a.children[..child]
  {
    var name := a.children[child];
    PositionIsFirst(a.children, name);
    match Position(a.children, name)
    case None =>
    case Some(i) => assert i < child ==> a.children[..child][i] == name;
  }
}
