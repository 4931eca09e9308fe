/** The in-memory session store as a value: what each operation does, and what every reader then sees. */
module SessionStore {
  import opened Wrappers
  import opened Strings
  import opened Events
  import opened Scopes

  datatype Session = Session(
    id: string,
    appName: string,
    userId: string,
    state: StateMap,
    events: seq<Event>,
    lastUpdateTime: int)

  datatype Key = Key(app: string, user: string, id: string)

  /** Sessions, and the state their users and their apps share under unprefixed keys. */
  datatype Store = Store(
    sessions: map<Key, Session>,
    userState: map<(string, string), StateMap>,
    appState: map<string, StateMap>)

  const EMPTY := Store(map[], map[], map[])

  function KeyOf(s: Session): Key {
    Key(s.appName, s.userId, s.id)
  }

  function OrEmpty(state: Option<StateMap>): StateMap {
    if state.Some? then state.value else map[]
  }

  /** A session's own state with the shared state of its app and its user laid over it. */
  ghost function Merged(st: Store, app: string, user: string, state: StateMap): StateMap {
    state + Prefixed(APP_PREFIX, OrEmpty(Get(st.appState, app))) +
    Prefixed(USER_PREFIX, OrEmpty(Get(st.userState, (app, user))))
  }

  ghost function View(st: Store, s: Session): Session {
    s.(state := Merged(st, s.appName, s.userId, s.state))
  }

  ghost function GetSession(st: Store, key: Key): Option<Session> {
    if key in st.sessions then Some(View(st, st.sessions[key])) else None
  }

  /** Files the shared shares of `delta`; a share with nothing in it leaves no trace. */
  ghost function ApplyShared(st: Store, app: string, user: string, delta: StateMap): Store {
    var appShare, userShare := Share(APP_PREFIX, delta), Share(USER_PREFIX, delta);
    st.(
      appState :=
        if appShare == map[] then st.appState
        else st.appState[app := OrEmpty(Get(st.appState, app)) + appShare],
      userState :=
        if userShare == map[] then st.userState
        else st.userState[(app, user) := OrEmpty(Get(st.userState, (app, user))) + userShare])
  }

  /** The id a new session gets: the one asked for, trimmed, unless it is blank. */
  function NewId(id: Option<string>, uuid: string): string {
    if id.Some? && Trim(id.value) != "" then Trim(id.value) else uuid
  }

  ghost function Create(st: Store, app: string, user: string, state: Option<StateMap>, id: Option<string>,
                  uuid: string, now: int): (Store, Result<Session, string>) {
    var key := Key(app, user, NewId(id, uuid));
    if id.Some? && Trim(id.value) != "" && key in st.sessions then (st, Err(key.id))
    else
      var session := Session(key.id, app, user, PlainShare(OrEmpty(state)), [], now);
      var st' := ApplyShared(st, app, user, OrEmpty(state));
      (st'.(sessions := st'.sessions[key := session]), Ok(View(st', session)))
  }

  predicate IsPartial(e: Event) {
    e.partial == Some(true)
  }

  /** An event as it is stored: its transient delta entries are gone. */
  function Stored(e: Event): Event {
    e.(actions := e.actions.(stateDelta := WithoutTemp(e.actions.stateDelta)))
  }

  /** Appends `event` to one copy of a session, transient entries included in its state. */
  function ApplyEvent(s: Session, event: Event): (Session, Event) {
    if IsPartial(event) then (s, event)
    else
      (s.(state := s.state + event.actions.stateDelta, events := s.events + [Stored(event)]), Stored(event))
  }

  datatype Appended = Appended(store: Store, copy: Session, event: Event)

  /** The event is appended unless it is partial, its session is gone, or it is stored already. */
  predicate Takes(st: Store, key: Key, event: Event) {
    !IsPartial(event) && key in st.sessions && event !in st.sessions[key].events
  }

  ghost function Append(st: Store, copy: Session, event: Event): Appended {
    var key := KeyOf(copy);
    if !Takes(st, key, event) then Appended(st, copy, event)
    else
      var (copy', trimmed) := ApplyEvent(copy, event);
      var delta := trimmed.actions.stateDelta;
      var st' := ApplyShared(st, key.app, key.user, delta);
      var stored := st.sessions[key];
      var stored' := stored.(
        state := stored.state + PlainShare(delta),
        events := stored.events + [trimmed],
        lastUpdateTime := trimmed.timestamp);
      Appended(
        st'.(sessions := st'.sessions[key := stored']),
        copy'.(lastUpdateTime := trimmed.timestamp),
        trimmed)
  }

  function Delete(st: Store, key: Key): Store {
    st.(sessions := st.sessions - {key})
  }

  // ----- What holds in every reachable store -----

  ghost predicate AllPlain(state: StateMap) {
    forall key :: key in state ==> IsPlain(key)
  }

  /** Sessions are filed under their own keys, hold plain keys only, and events without transient entries. */
  ghost predicate Valid(st: Store) {
    forall key :: key in st.sessions ==> ValidSession(key, st.sessions[key])
  }

  ghost predicate ValidSession(key: Key, s: Session) {
    KeyOf(s) == key && AllPlain(s.state) &&
    forall i :: 0 <= i < |s.events| ==> !IsPartial(s.events[i]) && NoTemp(s.events[i])
  }

  ghost predicate NoTemp(e: Event) {
    forall key :: key in e.actions.stateDelta ==> !IsTemp(key)
  }

  datatype Op =
    | CreateOp(app: string, user: string, state: Option<StateMap>, id: Option<string>, uuid: string, now: int)
    | AppendOp(copy: Session, event: Event)
    | DeleteOp(key: Key)

  /** A store together with the state each of its sessions was created with. */
  datatype Journal = Journal(store: Store, initial: map<Key, StateMap>)

  ghost function Step(j: Journal, op: Op): Journal {
    match op
    case CreateOp(app, user, state, id, uuid, now) =>
      var (st, r) := Create(j.store, app, user, state, id, uuid, now);
      Journal(st, if r.Ok? then j.initial[Key(app, user, NewId(id, uuid)) := PlainShare(OrEmpty(state))] else j.initial)
    case AppendOp(copy, event) => j.(store := Append(j.store, copy, event).store)
    case DeleteOp(key) => j.(store := Delete(j.store, key))
  }

  ghost function RunOps(ops: seq<Op>): Journal {
    if ops == [] then Journal(EMPTY, map[]) else Step(RunOps(ops[..|ops| - 1]), ops[|ops| - 1])
  }

  /** The session's own share of its events' deltas, folded over its initial state. */
  function Replayed(initial: StateMap, events: seq<Event>): StateMap {
    if events == [] then initial
    else Replayed(initial, events[..|events| - 1]) + PlainShare(events[|events| - 1].actions.stateDelta)
  }

  ghost predicate EventSourced(j: Journal) {
    forall key :: key in j.store.sessions ==>
      key in j.initial && j.store.sessions[key].state == Replayed(j.initial[key], j.store.sessions[key].events)
  }

  lemma StoredHasNoTemp(e: Event)
    requires !IsPartial(e)
    ensures NoTemp(Stored(e)) && !IsPartial(Stored(e))
  {
  }

  lemma {:induction false} RunOpsValid(ops: seq<Op>)
    ensures Valid(RunOps(ops).store)
  {
    if ops != [] {
      RunOpsValid(ops[..|ops| - 1]);
      match ops[|ops| - 1]
      case CreateOp(_, _, _, _, _, _) =>
      case AppendOp(copy, event) => AppendValid(RunOps(ops[..|ops| - 1]).store, copy, event);
      case DeleteOp(_) =>
    }
  }

  lemma AppendValid(st: Store, copy: Session, event: Event)
    requires Valid(st)
    ensures Valid(Append(st, copy, event).store)
  {
    var key := KeyOf(copy);
    if Takes(st, key, event) {
      StoredHasNoTemp(event);
      assert ValidSession(key, st.sessions[key]);
    }
  }

  /** In every reachable store each session's state is its initial one with its stored events replayed over it. */
  lemma {:induction false} StatesAreEventSourced(ops: seq<Op>)
    ensures EventSourced(RunOps(ops))
  {
    if ops != [] {
      StatesAreEventSourced(ops[..|ops| - 1]);
      var j := RunOps(ops[..|ops| - 1]);
      match ops[|ops| - 1]
      case CreateOp(_, _, _, _, _, _) =>
      case AppendOp(copy, event) => AppendEventSourced(j, copy, event);
      case DeleteOp(_) =>
    }
  }

  lemma AppendEventSourced(j: Journal, copy: Session, event: Event)
    requires EventSourced(j)
    ensures EventSourced(Step(j, AppendOp(copy, event)))
  {
    var key := KeyOf(copy);
    if Takes(j.store, key, event) {
      var events := j.store.sessions[key].events;
      assert (events + [Stored(event)])[..|events|] == events;
    }
  }
}
