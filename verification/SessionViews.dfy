/** What callers of the session store see: detached copies stay current, and scopes keep to themselves. */
module SessionViews {
  import opened Wrappers
  import opened Events
  import opened Scopes
  import opened SessionStore
  import opened Strings

  /** `m` and `m'` agree on every key that is not transient. */
  ghost predicate AgreeUpToTemp(m: StateMap, m': StateMap) {
    forall key :: !IsTemp(key) ==> (key in m <==> key in m') && (key in m ==> m[key] == m'[key])
  }

  /** A caller's copy is what a fresh read would give, transient entries of its state apart. */
  ghost predicate Current(st: Store, copy: Session) {
    var read := GetSession(st, KeyOf(copy));
    read.Some? && copy == read.value.(state := copy.state) && AgreeUpToTemp(copy.state, read.value.state)
  }

  /** One entry of the flat view: its prefix says which physical map it lives in. */
  function Look(appState: StateMap, userState: StateMap, state: StateMap, key: string): Option<Value> {
    if APP_PREFIX <= key then Get(appState, key[|APP_PREFIX|..])
    else if USER_PREFIX <= key then Get(userState, key[|USER_PREFIX|..])
    else Get(state, key)
  }

  /** Three physical maps look like one flat map to every reader. */
  lemma MergedAt(st: Store, app: string, user: string, state: StateMap, key: string)
    requires AllPlain(state)
    ensures Get(Merged(st, app, user, state), key) ==
            Look(OrEmpty(Get(st.appState, app)), OrEmpty(Get(st.userState, (app, user))), state, key)
  {
    OneScope(key);
  }

  /** What filing a delta's shared shares does to the shared maps, as readers see them. */
  lemma SharedAfter(st: Store, app: string, user: string, delta: StateMap, app': string, user': string)
    ensures var st' := ApplyShared(st, app, user, delta);
            var appState, userState := OrEmpty(Get(st.appState, app')), OrEmpty(Get(st.userState, (app', user')));
            OrEmpty(Get(st'.appState, app')) ==
              (if app' == app then appState + Share(APP_PREFIX, delta) else appState) &&
            OrEmpty(Get(st'.userState, (app', user'))) ==
              (if (app', user') == (app, user) then userState + Share(USER_PREFIX, delta) else userState)
  {
  }

  lemma GetOverlaid(prefix: string, shared: StateMap, delta: StateMap, key: string)
    requires prefix <= key
    ensures Get(shared + Share(prefix, delta), key[|prefix|..]) ==
            if key in delta then Get(delta, key) else Get(shared, key[|prefix|..])
  {
    assert prefix + key[|prefix|..] == key;
  }

  /** Whether an entry of a delta filed for `key` shows in a session of `other`. */
  predicate Shows(key: Key, other: Key, k: string) {
    if APP_PREFIX <= k then other.app == key.app
    else if USER_PREFIX <= k then other.app == key.app && other.user == key.user
    else other == key
  }

  /** The part of a delta that shows in a session of `other`, when `key`'s session takes it. */
  function Visible(key: Key, other: Key, delta: StateMap): StateMap {
    map k | k in delta && Shows(key, other, k) :: delta[k]
  }

  /** An entry of the merged view after a delta has been filed for `key`, seen from a session of `other`. */
  lemma ViewAfterAt(st: Store, key: Key, other: Key, state: StateMap, delta: StateMap, k: string)
    requires AllPlain(state) && NoTempKeys(delta)
    ensures var st' := ApplyShared(st, key.app, key.user, delta);
            var state' := if other == key then state + PlainShare(delta) else state;
            AllPlain(state') &&
            Get(Merged(st', other.app, other.user, state'), k) ==
            if k in delta && Shows(key, other, k) then Get(delta, k)
            else Get(Merged(st, other.app, other.user, state), k)
  {
    var st' := ApplyShared(st, key.app, key.user, delta);
    var state' := if other == key then state + PlainShare(delta) else state;
    MergedAt(st, other.app, other.user, state, k);
    MergedAt(st', other.app, other.user, state', k);
    SharedAfter(st, key.app, key.user, delta, other.app, other.user);
    var appState, userState := OrEmpty(Get(st.appState, other.app)), OrEmpty(Get(st.userState, (other.app, other.user)));
    if APP_PREFIX <= k {
      GetOverlaid(APP_PREFIX, appState, delta, k);
    } else if USER_PREFIX <= k {
      GetOverlaid(USER_PREFIX, userState, delta, k);
    }
  }

  lemma ViewAfter(st: Store, key: Key, other: Key, state: StateMap, delta: StateMap)
    requires AllPlain(state) && NoTempKeys(delta)
    ensures var st' := ApplyShared(st, key.app, key.user, delta);
            var state' := if other == key then state + PlainShare(delta) else state;
            Merged(st', other.app, other.user, state') ==
            Merged(st, other.app, other.user, state) + Visible(key, other, delta)
  {
    var l := Merged(ApplyShared(st, key.app, key.user, delta), other.app, other.user,
                    if other == key then state + PlainShare(delta) else state);
    var m := Merged(st, other.app, other.user, state);
    forall k ensures Get(l, k) == Get(m + Visible(key, other, delta), k) {
      ViewAfterAt(st, key, other, state, delta, k);
    }
    SameEntries(l, m + Visible(key, other, delta));
  }

  lemma SameEntries(l: StateMap, r: StateMap)
    requires forall k :: Get(l, k) == Get(r, k)
    ensures l == r
  {
    forall k ensures k in l <==> k in r ensures k in l ==> l[k] == r[k] {
      assert Get(l, k) == Get(r, k);
    }
  }

  ghost predicate NoTempKeys(delta: StateMap) {
    forall key :: key in delta ==> !IsTemp(key)
  }

  /**
   * An append shows in every other session exactly as far as its scopes reach: `app:` and `user:`
   * entries for the same user, `app:` entries for other users of the app, nothing for other apps.
   */
  lemma OthersSeeTheirScope(st: Store, copy: Session, event: Event, other: Key)
    requires Valid(st) && Takes(st, KeyOf(copy), event) && other in st.sessions
    ensures var before, after := GetSession(st, other).value, GetSession(Append(st, copy, event).store, other);
            var delta := Stored(event).actions.stateDelta;
            after.Some? &&
            after.value.state == before.state + Visible(KeyOf(copy), other, delta) &&
            (other != KeyOf(copy) ==> after.value == before.(state := after.value.state))
  {
    assert ValidSession(other, st.sessions[other]);
    StoredHasNoTemp(event);
    ViewAfter(st, KeyOf(copy), other, st.sessions[other].state, Stored(event).actions.stateDelta);
  }

  /** How far a delta reaches: all of it in its own session, and elsewhere no further than its scopes. */
  lemma ReachOfADelta(key: Key, other: Key, delta: StateMap)
    requires NoTempKeys(delta)
    ensures Visible(key, other, delta) ==
            if other == key then delta
            else if other.app != key.app then map[]
            else if other.user != key.user then Restrict(APP_PREFIX, delta)
            else Restrict(APP_PREFIX, delta) + Restrict(USER_PREFIX, delta)
  {
    forall k { OneScope(k); }
  }

  /** A caller's copy that is current before an append is current after it. */
  lemma AppendKeepsCurrent(st: Store, copy: Session, event: Event)
    requires Valid(st) && Current(st, copy)
    ensures var a := Append(st, copy, event); Current(a.store, a.copy)
  {
    var key := KeyOf(copy);
    if Takes(st, key, event) {
      assert ValidSession(key, st.sessions[key]);
      OthersSeeTheirScope(st, copy, event, key);
      var a := Append(st, copy, event);
      var read, read' := GetSession(st, key).value, GetSession(a.store, key).value;
      var delta := event.actions.stateDelta;
      forall k | !IsTemp(k)
        ensures k in a.copy.state <==> k in read'.state
        ensures k in a.copy.state ==> a.copy.state[k] == read'.state[k]
      {
        assert k in WithoutTemp(delta) <==> k in delta;
      }
    }
  }

  /** A copy handed out by a read is current. */
  lemma ReadIsCurrent(st: Store, key: Key)
    requires Valid(st) && key in st.sessions
    ensures Current(st, GetSession(st, key).value)
  {
    assert ValidSession(key, st.sessions[key]);
  }

  /** So is the copy a creation hands out. */
  lemma CreateIsCurrent(st: Store, app: string, user: string, state: Option<StateMap>, id: Option<string>,
                        uuid: string, now: int)
    ensures var (st', r) := Create(st, app, user, state, id, uuid, now);
            r.Ok? ==> Current(st', r.value) && KeyOf(r.value) == Key(app, user, NewId(id, uuid))
  {
  }

  /** Filing a delta's shared shares takes no notice of its transient entries. */
  lemma SharesWithoutTemp(state: StateMap)
    ensures Share(APP_PREFIX, state) == Share(APP_PREFIX, WithoutTemp(state))
    ensures Share(USER_PREFIX, state) == Share(USER_PREFIX, WithoutTemp(state))
    ensures PlainShare(state) == PlainShare(WithoutTemp(state))
  {
    SameShare(APP_PREFIX, state);
    SameShare(USER_PREFIX, state);
    assert PlainShare(state) == PlainShare(WithoutTemp(state));
  }

  lemma SameShare(prefix: string, state: StateMap)
    requires prefix == APP_PREFIX || prefix == USER_PREFIX
    ensures Share(prefix, state) == Share(prefix, WithoutTemp(state))
  {
    var m, m' := Share(prefix, state), Share(prefix, WithoutTemp(state));
    assert IsShare(prefix, m, state) && IsShare(prefix, m', WithoutTemp(state));
    hide Share;
    forall k ensures (k in m <==> k in m') && (k in m ==> m[k] == m'[k]) {
      OneScope(prefix + k);
    }
  }

  /** The id asked for is in use, blanks around it left out. */
  ghost predicate IdInUse(st: Store, app: string, user: string, id: Option<string>) {
    id.Some? && Trim(id.value) != "" && Key(app, user, Trim(id.value)) in st.sessions
  }

  /**
   * A creation fails exactly if the id asked for is in use, and then changes nothing.  Otherwise one
   * session is new, without events, under the id asked for or else under the fresh one, and a read of
   * it gives what the creation returned.
   */
  lemma CreateExact(st: Store, app: string, user: string, state: Option<StateMap>, id: Option<string>,
                    uuid: string, now: int)
    ensures var (st', r) := Create(st, app, user, state, id, uuid, now);
            (r.Err? <==> IdInUse(st, app, user, id)) && (r.Err? ==> st' == st) &&
            (r.Ok? ==>
               KeyOf(r.value) == Key(app, user, if id.Some? && Trim(id.value) != "" then Trim(id.value) else uuid) &&
               r.value.events == [] && r.value.lastUpdateTime == now &&
               st'.sessions.Keys == st.sessions.Keys + {KeyOf(r.value)} &&
               GetSession(st', KeyOf(r.value)) == Some(r.value))
  {
    hide Trim, Share, PlainShare;
  }

  /**
   * The state a creation returns: every entry it was given that is not transient, and besides those only
   * what the app's and the user's sessions shared before.
   */
  lemma CreatedState(st: Store, app: string, user: string, state: Option<StateMap>, id: Option<string>,
                     uuid: string, now: int, k: string)
    ensures var r := Create(st, app, user, state, id, uuid, now).1;
            r.Ok? ==>
              Get(r.value.state, k) ==
              if "temp:" <= k then None
              else if state.Some? && k in state.value then Some(state.value[k])
              else if "app:" <= k && app in st.appState then Get(st.appState[app], k[4..])
              else if "user:" <= k && (app, user) in st.userState then Get(st.userState[(app, user)], k[5..])
              else None
  {
    var given, r := OrEmpty(state), Create(st, app, user, state, id, uuid, now).1;
    if r.Ok? {
      OneScope(k);
      var st', key := ApplyShared(st, app, user, given), KeyOf(r.value);
      assert r.value.state == Merged(st', app, user, PlainShare(given));
      MergedAt(st', app, user, PlainShare(given), k);
      SharedAfter(st, app, user, given, app, user);
      if APP_PREFIX <= k {
        GetOverlaid(APP_PREFIX, OrEmpty(Get(st.appState, app)), given, k);
      } else if USER_PREFIX <= k {
        GetOverlaid(USER_PREFIX, OrEmpty(Get(st.userState, (app, user))), given, k);
      }
    }
  }

  /** Every other session of the store reads as before, with the entries given to the new one that show in it. */
  lemma OthersSeeCreation(st: Store, app: string, user: string, state: Option<StateMap>, id: Option<string>,
                          uuid: string, now: int, other: Key)
    requires Valid(st) && other in st.sessions
    ensures var (st', r) := Create(st, app, user, state, id, uuid, now);
            var before := GetSession(st, other).value;
            r.Ok? && other != KeyOf(r.value) ==>
              GetSession(st', other) ==
              Some(before.(state := before.state + Visible(KeyOf(r.value), other, WithoutTemp(OrEmpty(state)))))
  {
    var (st', r) := Create(st, app, user, state, id, uuid, now);
    if r.Ok? && other != KeyOf(r.value) {
      assert ValidSession(other, st.sessions[other]);
      var delta := WithoutTemp(OrEmpty(state));
      SharesWithoutTemp(OrEmpty(state));
      assert ApplyShared(st, app, user, OrEmpty(state)) == ApplyShared(st, app, user, delta);
      hide Create, Visible, WithoutTemp, Trim, NewId;
      ViewAfter(st, KeyOf(r.value), other, st.sessions[other].state, delta);
    }
  }

  /** What the user's sessions share after a creation: what they shared before, with the `user:` entries given. */
  lemma UserStateAfterCreate(st: Store, app: string, user: string, state: Option<StateMap>, id: Option<string>,
                             uuid: string, now: int, k: string)
    ensures var (st', r) := Create(st, app, user, state, id, uuid, now);
            var before, after := OrEmpty(Get(st.userState, (app, user))), OrEmpty(Get(st'.userState, (app, user)));
            r.Ok? ==>
              Get(after, k) ==
              if state.Some? && "user:" + k in state.value then Some(state.value["user:" + k]) else Get(before, k)
  {
    SharedAfter(st, app, user, OrEmpty(state), app, user);
    hide Trim, NewId, Merged;
  }

  /** Which entries show: `app:` entries throughout the app, `user:` entries for the user, others in their session only. */
  lemma VisibleExact(key: Key, other: Key, delta: StateMap, k: string)
    ensures Get(Visible(key, other, delta), k) ==
            if if "app:" <= k then other.app == key.app
               else if "user:" <= k then other.app == key.app && other.user == key.user
               else other == key
            then Get(delta, k) else None
    ensures Get(WithoutTemp(delta), k) == if "temp:" <= k then None else Get(delta, k)
  {
  }

  /**
   * What an append leaves, field by field: nothing changes if the event is partial, stored already or
   * its session gone.  Otherwise it is the last event of the stored session and of the caller's copy,
   * without its transient entries, and both bear its time.
   */
  lemma AppendExact(st: Store, copy: Session, event: Event)
    ensures var a, key := Append(st, copy, event), Key(copy.appName, copy.userId, copy.id);
            if event.partial == Some(true) || key !in st.sessions || event in st.sessions[key].events then
              a == Appended(st, copy, event)
            else
              var delta := event.actions.stateDelta;
              a.event == event.(actions := event.actions.(stateDelta := WithoutTemp(delta))) &&
              a.copy == copy.(state := copy.state + delta, events := copy.events + [a.event],
                              lastUpdateTime := event.timestamp) &&
              a.store.sessions.Keys == st.sessions.Keys &&
              (forall other :: other in st.sessions && other != key ==> a.store.sessions[other] == st.sessions[other]) &&
              a.store.sessions[key].events == st.sessions[key].events + [a.event] &&
              a.store.sessions[key].lastUpdateTime == event.timestamp
  {
    hide Share, PlainShare, WithoutTemp;
  }

  /** A deleted session is gone; every other session reads as before, and shared state stays. */
  lemma DeleteExact(st: Store, key: Key, other: Key)
    ensures GetSession(Delete(st, key), other) == if other == key then None else GetSession(st, other)
    ensures Delete(st, key).userState == st.userState && Delete(st, key).appState == st.appState
  {
  }

  /** Appending once more what an append returned changes neither the store nor the caller's copy. */
  lemma ReappendingReturned(st: Store, copy: Session, event: Event)
    ensures var a := Append(st, copy, event); Append(a.store, a.copy, a.event) == a
  {
    var a := Append(st, copy, event);
    if Takes(st, KeyOf(copy), event) {
      var events := st.sessions[KeyOf(copy)].events;
      assert (events + [a.event])[|events|] == a.event;
      assert a.event in a.store.sessions[KeyOf(copy)].events;
    }
  }

  predicate Creates(op: Op, key: Key) {
    op.CreateOp? && Key(op.app, op.user, NewId(op.id, op.uuid)) == key
  }

  /** No id was asked for, so that the session gets a new one. */
  predicate Generates(op: Op)
    requires op.CreateOp?
  {
    op.id.None? || Trim(op.id.value) == ""
  }

  /** The session is created again on the way: after it was deleted, or under a new id that is not new. */
  ghost predicate Reborn(ops: seq<Op>, key: Key) {
    exists j :: 0 <= j < |ops| && Creates(ops[j], key) && (Generates(ops[j]) || DeleteOp(key) in ops[..j])
  }

  /** The event is stored, unless its session was deleted. */
  ghost predicate Remembered(st: Store, key: Key, event: Event, deleted: bool) {
    if key in st.sessions then event in st.sessions[key].events else deleted
  }

  lemma StepRemembers(j: Journal, op: Op, key: Key, event: Event, deleted: bool)
    requires Remembered(j.store, key, event, deleted)
    requires Creates(op, key) ==> !deleted && !Generates(op)
    ensures Remembered(Step(j, op).store, key, event, deleted || op == DeleteOp(key))
  {
    hide Create, Append, NewId, Trim;
    match op
    case CreateOp(app, user, state, id, uuid, now) => CreateKeeps(j.store, app, user, state, id, uuid, now, key);
    case AppendOp(copy, appended) => AppendKeepsEvents(j.store, copy, appended, key);
    case DeleteOp(_) =>
  }

  lemma CreateKeeps(st: Store, app: string, user: string, state: Option<StateMap>, id: Option<string>, uuid: string,
                    now: int, key: Key)
    ensures var st' := Create(st, app, user, state, id, uuid, now).0;
            (key in st.sessions && (key == Key(app, user, NewId(id, uuid)) ==> id.Some? && Trim(id.value) != "") ==>
               key in st'.sessions && st'.sessions[key] == st.sessions[key]) &&
            (key in st'.sessions ==> key in st.sessions || key == Key(app, user, NewId(id, uuid)))
  {
    hide PlainShare, Share, Merged, NewId, Trim;
  }

  /** An append adds to the events of one session at most, and to no other's. */
  lemma AppendKeepsEvents(st: Store, copy: Session, event: Event, key: Key)
    ensures var st' := Append(st, copy, event).store;
            (key in st'.sessions <==> key in st.sessions) &&
            (key in st.sessions ==> forall e :: e in st.sessions[key].events ==> e in st'.sessions[key].events)
  {
    hide PlainShare, Share, Stored;
  }

  lemma OneMoreOp(ops: seq<Op>, op: Op)
    ensures RunOps(ops + [op]) == Step(RunOps(ops), op)
  {
    hide Step;
    assert (ops + [op])[..|ops|] == ops;
  }

  lemma RebornLater(ops: seq<Op>, op: Op, key: Key)
    requires !Reborn(ops + [op], key)
    ensures !Reborn(ops, key) && (Creates(op, key) ==> DeleteOp(key) !in ops && !Generates(op))
  {
    hide Creates, Generates;
    var more := ops + [op];
    assert forall j :: 0 <= j < |ops| ==> ops[j] == more[j] && ops[..j] == more[..j];
    assert more[|ops|] == op && more[..|ops|] == ops;
  }

  lemma {:induction false} StaysRemembered(begin: seq<Op>, more: seq<Op>, key: Key, event: Event)
    requires Remembered(RunOps(begin).store, key, event, false) && !Reborn(more, key)
    ensures Remembered(RunOps(begin + more).store, key, event, DeleteOp(key) in more)
    decreases |more|
  {
    hide *;
    if more == [] {
      assert begin + more == begin;
    } else {
      var init, op := more[..|more| - 1], more[|more| - 1];
      assert more == init + [op] && begin + more == (begin + init) + [op];
      RebornLater(init, op, key);
      StaysRemembered(begin, init, key, event);
      StepRemembers(RunOps(begin + init), op, key, event, DeleteOp(key) in init);
      OneMoreOp(begin + init, op);
    }
  }

  lemma ReturnedIsStored(st: Store, copy: Session, event: Event)
    requires Takes(st, KeyOf(copy), event)
    ensures var a := Append(st, copy, event); Remembered(a.store, KeyOf(copy), a.event, false)
  {
    hide PlainShare, Share, Stored;
    var events, returned := st.sessions[KeyOf(copy)].events, Append(st, copy, event).event;
    assert (events + [returned])[|events|] == returned;
  }

  /**
   * The event that an append returned is not taken again in any later store, whatever operations led
   * there, as long as the session was not created again on the way.
   */
  lemma NeverTakenAgain(ops: seq<Op>, copy: Session, event: Event, more: seq<Op>)
    requires Takes(RunOps(ops).store, KeyOf(copy), event) && !Reborn(more, KeyOf(copy))
    ensures var returned := Append(RunOps(ops).store, copy, event).event;
            var later := RunOps(ops + [AppendOp(copy, event)] + more).store;
            Remembered(later, KeyOf(copy), returned, DeleteOp(KeyOf(copy)) in more) &&
            !Takes(later, KeyOf(copy), returned)
  {
    var j, key := RunOps(ops), KeyOf(copy);
    assert Step(j, AppendOp(copy, event)).store == Append(j.store, copy, event).store;
    hide *;
    var returned, begin := Append(j.store, copy, event).event, ops + [AppendOp(copy, event)];
    ReturnedIsStored(j.store, copy, event);
    OneMoreOp(ops, AppendOp(copy, event));
    StaysRemembered(begin, more, key, returned);
    LaterNotTaken(RunOps(begin + more).store, key, returned, DeleteOp(key) in more);
  }

  lemma LaterNotTaken(st: Store, key: Key, event: Event, deleted: bool)
    requires Remembered(st, key, event, deleted)
    ensures !Takes(st, key, event)
  {
  }

  /**
   * Appending once more the event as it was first given is a no-op exactly when the first append was
   * one, or when the event carries no transient entries: otherwise its stored form differs from it,
   * and it is taken a second time.
   */
  lemma ReappendingOriginal(st: Store, copy: Session, event: Event)
    requires Valid(st)
    ensures var a := Append(st, copy, event);
            Append(a.store, a.copy, event).store == a.store <==>
            !Takes(st, KeyOf(copy), event) || NoTemp(event)
  {
    var a, key := Append(st, copy, event), KeyOf(copy);
    if Takes(st, key, event) {
      var events, events' := st.sessions[key].events, a.store.sessions[key].events;
      assert events' == events + [Stored(event)];
      if NoTemp(event) {
        assert WithoutTemp(event.actions.stateDelta) == event.actions.stateDelta;
        assert events'[|events|] == event;
      } else {
        AppendValid(st, copy, event);
        assert ValidSession(key, a.store.sessions[key]);
        assert event !in events';
        var b := Append(a.store, a.copy, event);
        assert |b.store.sessions[key].events| == |events'| + 1;
      }
    }
  }

  /** So an event with one transient entry, given to a session without events twice, is in it twice. */
  lemma TransientTakenTwice(st: Store, copy: Session, event: Event, key: string)
    requires Valid(st) && KeyOf(copy) in st.sessions && st.sessions[KeyOf(copy)].events == []
    requires !IsPartial(event) && IsTemp(key) && key in event.actions.stateDelta
    ensures var a := Append(st, copy, event);
            Append(a.store, a.copy, event).store.sessions[KeyOf(copy)].events == [Stored(event), Stored(event)]
  {
    var a := Append(st, copy, event);
    assert a.store.sessions[KeyOf(copy)].events == [Stored(event)];
    assert key !in Stored(event).actions.stateDelta;
  }
}
