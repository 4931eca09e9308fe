/** The event model every agent and service exchanges. */
module Events {
  import opened Wrappers

  /** A JSON value; the entries of a `Map` keep their insertion order. */
  datatype Value =
    | Null
    | Bool(flag: bool)
    | Int(i: int)
    | UInt(u: nat)
    | Float(f: real)
    | Text(s: string)
    | Seq(items: seq<Value>)
    | Map(entries: seq<(string, Value)>)

  type StateMap = map<string, Value>

  /** `rest` stands for the parts of a content block the model never inspects. */
  datatype Part = Part(text: Option<string>, callId: Option<Option<string>>, rest: Value)

  datatype Content = Content(parts: seq<Part>)

  datatype EventActions = EventActions(
    stateDelta: StateMap,
    escalate: bool,
    endOfAgent: bool,
    agentState: Option<StateMap>)

  /** `rest` stands for the fields that no modelled operation reads. */
  datatype Event = Event(
    id: string,
    invocationId: string,
    author: string,
    path: string,
    branch: Option<string>,
    timestamp: int,
    partial: Option<bool>,
    content: Option<Content>,
    longRunningToolIds: Option<seq<string>>,
    actions: EventActions,
    rest: Value)

  /** A fresh identifier and the time of an `Event::new` call. */
  datatype Stamp = Stamp(id: string, time: int)

  const NO_ACTIONS := EventActions(map[], false, false, None)

  function NewEvent(stamp: Stamp, invocationId: string, author: string): Event {
    Event(stamp.id, invocationId, author, "", None, stamp.time, None, None, None, NO_ACTIONS, Null)
  }

  /** The ids of the function calls a content block carries; a call may have none. */
  function CallIds(parts: seq<Part>): seq<Option<string>> {
    if parts == [] then []
    else (if parts[0].callId.Some? then [parts[0].callId.value] else []) + CallIds(parts[1..])
  }

  function GetFunctionCalls(e: Event): seq<Option<string>> {
    if e.content.Some? then CallIds(e.content.value.parts) else []
  }

  /** The name an event's agent state is filed under. */
  function Key(e: Event): string {
    if e.path == "" then e.author else e.path
  }

  /** Applies the state deltas of `events`, in order, to `state`. */
  function ApplyDeltas(state: StateMap, events: seq<Event>): StateMap {
    if events == [] then state
    else ApplyDeltas(state, events[..|events| - 1]) + events[|events| - 1].actions.stateDelta
  }

  lemma {:induction false} ApplyDeltasConcat(state: StateMap, a: seq<Event>, b: seq<Event>)
    ensures ApplyDeltas(state, a + b) == ApplyDeltas(ApplyDeltas(state, a), b)
  {
    if b == [] {
      assert a + b == a;
    } else {
      var b' := b[..|b| - 1];
      assert (a + b)[..|a + b| - 1] == a + b';
      ApplyDeltasConcat(state, a, b');
    }
  }

  /** Any events amount to one delta, whatever state they are applied to. */
  lemma {:induction false} DeltasAdd(state: StateMap, events: seq<Event>)
    ensures ApplyDeltas(state, events) == state + ApplyDeltas(map[], events)
  {
    if events != [] {
      DeltasAdd(state, events[..|events| - 1]);
    }
  }
}
