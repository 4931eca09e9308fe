/** `InMemorySessionService`: the store's maps and the callers' copies, updated in place. */
module SessionService {
  import opened Wrappers
  import opened Strings
  import opened Events
  import opened Orderings
  import opened Scopes
  import opened SessionStore

  /** A session a caller holds, detached from the store. */
  class SessionCopy {
    var value: Session

    constructor (value: Session)
      ensures this.value == value
    {
      this.value := value;
    }
  }

  /** `None` or an empty bound keeps everything, as does a zero time. */
  datatype GetSessionConfig = GetSessionConfig(numRecentEvents: Option<int>, afterTimestamp: Option<int>)

  /** Oldest first, then by user, then by id. */
  predicate ListedBefore(a: Session, b: Session) {
    a.lastUpdateTime < b.lastUpdateTime ||
    (a.lastUpdateTime == b.lastUpdateTime &&
     (StrLess(a.userId, b.userId) || (a.userId == b.userId && StrLeq(a.id, b.id))))
  }

  /** Ascending by time, at one time by user, and for one user by id. */
  ghost predicate InListOrder(a: Session, b: Session) {
    a.lastUpdateTime <= b.lastUpdateTime &&
    (a.lastUpdateTime == b.lastUpdateTime ==>
       a.userId == b.userId || exists i :: DiffersAt(a.userId, b.userId, i)) &&
    (a.lastUpdateTime == b.lastUpdateTime && a.userId == b.userId ==>
       a.id == b.id || exists i :: DiffersAt(a.id, b.id, i))
  }

  lemma ListedInOrder(sessions: seq<Session>)
    requires Sorted(sessions, ListedBefore)
    ensures forall i, j :: 0 <= i < j < |sessions| ==> InListOrder(sessions[i], sessions[j])
  {
    forall i, j | 0 <= i < j < |sessions| ensures InListOrder(sessions[i], sessions[j]) {
      var a, b := sessions[i], sessions[j];
      assert ListedBefore(a, b);
      StrLessExact(a.userId, b.userId);
      StrLessExact(a.id, b.id);
    }
  }

  lemma ListOrder()
    ensures TotalPreorder(ListedBefore)
    ensures forall a, b :: ListedBefore(a, b) && ListedBefore(b, a) ==> a.userId == b.userId && a.id == b.id
  {
    forall a: Session, b: Session
      ensures ListedBefore(a, b) || ListedBefore(b, a)
      ensures ListedBefore(a, b) && ListedBefore(b, a) ==> a.userId == b.userId && a.id == b.id
    {
      StrTotal(a.userId, b.userId);
      StrTotal(a.id, b.id);
    }
    forall a: Session, b: Session, c: Session | ListedBefore(a, b) && ListedBefore(b, c) ensures ListedBefore(a, c) {
      if StrLeq(a.userId, b.userId) && StrLeq(b.userId, c.userId) { StrTransitive(a.userId, b.userId, c.userId); }
      if StrLeq(a.id, b.id) && StrLeq(b.id, c.id) { StrTransitive(a.id, b.id, c.id); }
      StrTotal(a.userId, b.userId);
      StrTotal(b.userId, c.userId);
    }
  }

  /** `result` holds the event-free view of each of the sessions of the user, or of all users, once. */
  ghost predicate Listed(st: Store, app: string, user: Option<string>, keys: set<Key>, result: seq<Session>) {
    (forall i, j :: 0 <= i < j < |result| ==> KeyOf(result[i]) != KeyOf(result[j])) &&
    forall s :: s in result <==> exists key :: key in keys && IsListed(st, app, user, key, s)
  }

  ghost predicate IsListed(st: Store, app: string, user: Option<string>, key: Key, s: Session) {
    key in st.sessions && key.app == app && (user.None? || key.user == user.value) &&
    s == View(st, st.sessions[key]).(events := [])
  }

  lemma NoneListed(st: Store, app: string, user: Option<string>)
    ensures Listed(st, app, user, {}, [])
  {
  }

  /** Merging the state of a session without its events gives its listed form. */
  lemma ListedView(st: Store, key: Key)
    requires Valid(st) && key in st.sessions
    ensures var s := st.sessions[key];
            View(st, s).(events := []) == s.(events := [], state := Merged(st, key.app, key.user, s.state))
  {
    assert ValidSession(key, st.sessions[key]);
  }

  lemma ListedKey(st: Store, app: string, user: Option<string>, key: Key, s: Session)
    requires Valid(st) && IsListed(st, app, user, key, s)
    ensures KeyOf(s) == key
  {
    assert ValidSession(key, st.sessions[key]);
  }

  lemma ListedStep(st: Store, app: string, user: Option<string>, keys: set<Key>, key: Key, result: seq<Session>)
    requires Valid(st) && Listed(st, app, user, keys, result) && key in st.sessions && key !in keys
    ensures Listed(st, app, user, keys + {key},
                   if key.app == app && (user.None? || key.user == user.value)
                   then result + [View(st, st.sessions[key]).(events := [])] else result)
  {
    hide Valid, View;
    var s := View(st, st.sessions[key]).(events := []);
    var shown := key.app == app && (user.None? || key.user == user.value);
    var result' := if shown then result + [s] else result;
    forall t ensures t in result' <==> exists k :: k in keys + {key} && IsListed(st, app, user, k, t) {
      if t in result {
        var k :| k in keys && IsListed(st, app, user, k, t);
        assert k in keys + {key};
      }
      if shown && t == s {
        assert key in keys + {key} && IsListed(st, app, user, key, t);
      }
    }
    if shown {
      ListedKey(st, app, user, key, s);
      forall i | 0 <= i < |result| ensures KeyOf(result[i]) != key {
        assert result[i] in result;
        var k :| k in keys && IsListed(st, app, user, k, result[i]);
        ListedKey(st, app, user, k, result[i]);
      }
    }
  }

  lemma SortListed(st: Store, app: string, user: Option<string>, keys: set<Key>, result: seq<Session>)
    requires Listed(st, app, user, keys, result)
    ensures Sorted(Sort(result, ListedBefore), ListedBefore)
    ensures Listed(st, app, user, keys, Sort(result, ListedBefore))
  {
    hide IsListed;
    SortKeepsDistinct(result);
  }

  class InMemorySessionService {
    var sessions: map<Key, Session>
    var userState: map<(string, string), StateMap>
    var appState: map<string, StateMap>

    constructor ()
      ensures Model() == EMPTY
    {
      sessions, userState, appState := map[], map[], map[];
    }

    function Model(): Store
      reads this
    {
      Store(sessions, userState, appState)
    }

    method MergeState(app: string, user: string, s: Session) returns (merged: Session)
      ensures merged == s.(state := Merged(Model(), app, user, s.state))
    {
      var state := s.state;
      if app in appState {
        state := Overlay(APP_PREFIX, state, appState[app]);
      }
      if (app, user) in userState {
        state := Overlay(USER_PREFIX, state, userState[(app, user)]);
      }
      merged := s.(state := state);
    }

    method ApplyScopedStateDelta(app: string, user: string, delta: StateMap) returns (own: StateMap)
      modifies this`userState, this`appState
      ensures own == PlainShare(delta) && Model() == ApplyShared(old(Model()), app, user, delta)
    {
      var appDelta, userDelta;
      appDelta, userDelta, own := ExtractStateDelta(delta);
      if appDelta != map[] {
        appState := appState[app := OrEmpty(Get(appState, app)) + appDelta];
      }
      if userDelta != map[] {
        userState := userState[(app, user) := OrEmpty(Get(userState, (app, user))) + userDelta];
      }
    }

    method CreateSession(app: string, user: string, state: Option<StateMap>, id: Option<string>, uuid: string, now: int)
      returns (r: Result<Session, string>)
      modifies this
      ensures (Model(), r) == Create(old(Model()), app, user, state, id, uuid, now)
    {
      var sessionId := uuid;
      if id.Some? && Trim(id.value) != "" {
        sessionId := Trim(id.value);
        if Key(app, user, sessionId) in sessions {
          return Err(sessionId);
        }
      }
      var own := ApplyScopedStateDelta(app, user, OrEmpty(state));
      var session := Session(sessionId, app, user, own, [], now);
      var merged := MergeState(app, user, session);
      sessions := sessions[Key(app, user, sessionId) := session];
      r := Ok(merged);
    }

    method ReadSession(app: string, user: string, id: string) returns (r: Option<Session>)
      requires Valid(Model())
      ensures r == GetSession(Model(), Key(app, user, id))
    {
      var key := Key(app, user, id);
      if key !in sessions {
        return None;
      }
      assert ValidSession(key, sessions[key]);
      var merged := MergeState(app, user, sessions[key]);
      r := Some(merged);
    }

    /** A read that keeps only the most recent events, and of those only the late ones. */
    method ReadSessionWithConfig(app: string, user: string, id: string, config: Option<GetSessionConfig>)
      returns (r: Option<Session>)
      requires Valid(Model())
      ensures var full := GetSession(Model(), Key(app, user, id));
              if full.None? || config.None? then r == full
              else r == Some(full.value.(events := Trimmed(full.value.events, config.value)))
    {
      r := ReadSession(app, user, id);
      if r.Some? && config.Some? {
        var events := r.value.events;
        var recent := config.value.numRecentEvents;
        if recent.Some? {
          if recent.value <= 0 {
            events := [];
          } else if recent.value < |events| {
            events := events[|events| - recent.value..];
          }
        }
        var after := config.value.afterTimestamp;
        if after.Some? && after.value != 0 {
          events := Filter(events, e => NotBefore(e, after.value));
        }
        r := Some(r.value.(events := events));
      }
    }

    /** All sessions of a user, or of every user of the app, without their events. */
    method ListSessions(app: string, user: Option<string>) returns (result: seq<Session>)
      requires Valid(Model())
      ensures forall i, j :: 0 <= i < j < |result| ==> InListOrder(result[i], result[j])
      ensures Listed(Model(), app, user, sessions.Keys, result)
    {
      result := [];
      var todo := sessions.Keys;
      ghost var st, keys := Model(), sessions.Keys;
      NoneListed(st, app, user);
      assert keys - todo == {};
      hide Listed, Valid, ValidSession, View, Merged;
      while todo != {}
        invariant todo <= keys && Listed(st, app, user, keys - todo, result)
        decreases |todo|
      {
        var key :| key in todo;
        OneMoreDone(keys, todo, key);
        ListedStep(st, app, user, keys - todo, key, result);
        todo := todo - {key};
        if key.app == app && (user.None? || key.user == user.value) {
          var listed := MergeState(app, key.user, sessions[key].(events := []));
          ListedView(st, key);
          result := result + [listed];
        }
      }
      assert keys - todo == keys;
      SortListed(st, app, user, keys, result);
      result := Sort(result, ListedBefore);
      ListedInOrder(result);
    }

    method DeleteSession(app: string, user: string, id: string)
      modifies this`sessions
      ensures Model() == Delete(old(Model()), Key(app, user, id))
    {
      sessions := sessions - {Key(app, user, id)};
    }

    /** Appends to the caller's copy and mirrors the event onto the stored session. */
    method AppendEvent(copy: SessionCopy, event: Event) returns (r: Event)
      modifies this, copy
      ensures var a := Append(old(Model()), old(copy.value), event);
              Model() == a.store && copy.value == a.copy && r == a.event
    {
      if IsPartial(event) {
        return event;
      }
      var key := KeyOf(copy.value);
      if key !in sessions || event in sessions[key].events {
        return event;
      }
      r := ApplySessionEvent(copy, event);
      copy.value := copy.value.(lastUpdateTime := r.timestamp);
      var stored := sessions[key].(events := sessions[key].events + [r], lastUpdateTime := r.timestamp);
      var own := ApplyScopedStateDelta(key.app, key.user, r.actions.stateDelta);
      sessions := sessions[key := stored.(state := stored.state + own)];
    }

    method GetUserState(app: string, user: string) returns (state: StateMap)
      ensures state == OrEmpty(Get(Model().userState, (app, user)))
    {
      state := OrEmpty(Get(userState, (app, user)));
    }
  }

  predicate NotBefore(e: Event, time: int) {
    e.timestamp >= time
  }

  /** What a bounded read keeps of a session's events. */
  function Trimmed(events: seq<Event>, config: GetSessionConfig): seq<Event> {
    var recent :=
      match config.numRecentEvents
      case None => events
      case Some(n) => if n <= 0 then [] else if n < |events| then events[|events| - n..] else events;
    match config.afterTimestamp
    case None => recent
    case Some(time) => if time == 0 then recent else Filter(recent, e => NotBefore(e, time))
  }

  /** `recent` are the last `n` of the events if a number is given, none for a number that is not positive. */
  ghost predicate AreRecent(recent: seq<Event>, events: seq<Event>, limit: Option<int>) {
    (limit.None? ==> recent == events) && (exists older :: older + recent == events) &&
    (limit.Some? ==>
       |recent| == if limit.value <= 0 then 0 else if limit.value <= |events| then limit.value else |events|)
  }

  lemma RecentOf(events: seq<Event>, config: GetSessionConfig) returns (recent: seq<Event>)
    ensures AreRecent(recent, events, config.numRecentEvents)
    ensures Trimmed(events, config) == Trimmed(recent, GetSessionConfig(None, config.afterTimestamp))
  {
    hide Filter;
    var from := if config.numRecentEvents.None? then 0 else
                  var n := config.numRecentEvents.value;
                  if n <= 0 then |events| else if n < |events| then |events| - n else 0;
    recent := events[from..];
    assert events[..from] + recent == events;
  }

  predicate LateEnough(e: Event, after: Option<int>) {
    after.Some? && after.value != 0 ==> e.timestamp >= after.value
  }

  lemma {:induction false} AllPicked(s: seq<Event>, keep: Event -> bool)
    requires forall i :: 0 <= i < |s| ==> keep(s[i])
    ensures Filter(s, keep) == s
  {
    if s != [] {
      AllPicked(s[1..], keep);
    }
  }

  lemma {:induction false} SameFilter(s: seq<Event>, keep: Event -> bool, keep': Event -> bool)
    requires forall i :: 0 <= i < |s| ==> keep(s[i]) == keep'(s[i])
    ensures Filter(s, keep) == Filter(s, keep')
  {
    if s != [] {
      SameFilter(s[1..], keep, keep');
    }
  }

  /** A bounded read keeps the recent events, and of those in their order the ones that are late enough. */
  lemma TrimmedExact(events: seq<Event>, config: GetSessionConfig) returns (recent: seq<Event>, at: seq<int>)
    ensures AreRecent(recent, events, config.numRecentEvents)
    ensures Picks(recent, e => LateEnough(e, config.afterTimestamp), Trimmed(events, config), at)
  {
    hide AreRecent, Filter, Picks;
    recent := RecentOf(events, config);
    var after := config.afterTimestamp;
    var keep := (e: Event) => LateEnough(e, after);
    if after.Some? && after.value != 0 {
      SameFilter(recent, e => NotBefore(e, after.value), keep);
    } else {
      AllPicked(recent, keep);
    }
    at := FilterExact(recent, keep);
  }

  /** `apply_session_event`: transient entries first, then everything else, then the trimmed event. */
  method ApplySessionEvent(copy: SessionCopy, event: Event) returns (r: Event)
    modifies copy
    ensures (copy.value, r) == ApplyEvent(old(copy.value), event)
  {
    if IsPartial(event) {
      return event;
    }
    var delta := event.actions.stateDelta;
    var transient := map key | key in delta && IsTemp(key) :: delta[key];
    r := Stored(event);
    copy.value := copy.value.(state := copy.value.state + transient);
    copy.value := copy.value.(
      state := copy.value.state + r.actions.stateDelta,
      events := copy.value.events + [r]);
    assert old(copy.value).state + transient + WithoutTemp(delta) == old(copy.value).state + delta;
  }

  lemma SortKeepsDistinct(s: seq<Session>)
    requires forall i, j :: 0 <= i < j < |s| ==> KeyOf(s[i]) != KeyOf(s[j])
    ensures var r := Sort(s, ListedBefore);
            Sorted(r, ListedBefore) && (forall x :: x in r <==> x in s) &&
            forall i, j :: 0 <= i < j < |r| ==> KeyOf(r[i]) != KeyOf(r[j])
  {
    ListOrder();
    SortSorts(s, ListedBefore);
    PermutationKeepsDistinct(s, Sort(s, ListedBefore));
  }

  lemma PermutationKeepsDistinct(s: seq<Session>, r: seq<Session>)
    requires multiset(r) == multiset(s)
    requires forall i, j :: 0 <= i < j < |s| ==> KeyOf(s[i]) != KeyOf(s[j])
    ensures forall x :: x in r <==> x in s
    ensures forall i, j :: 0 <= i < j < |r| ==> KeyOf(r[i]) != KeyOf(r[j])
  {
    forall x ensures x in r <==> x in s {
      assert x in r <==> x in multiset(r);
    }
    forall i, j | 0 <= i < j < |r| && KeyOf(r[i]) == KeyOf(r[j]) ensures false {
      assert r[i] in r && r[j] in r;
      if r[i] == r[j] {
        Multiplicity(r, i, j);
        OnceOnly(s, r[i]);
      }
    }
  }

  lemma Multiplicity(r: seq<Session>, i: nat, j: nat)
    requires i < j < |r| && r[i] == r[j]
    ensures multiset(r)[r[i]] >= 2
  {
    assert r == r[..i] + [r[i]] + r[i + 1..j] + [r[j]] + r[j + 1..];
  }

  lemma {:induction false} OnceOnly(s: seq<Session>, x: Session)
    requires forall i, j :: 0 <= i < j < |s| ==> KeyOf(s[i]) != KeyOf(s[j])
    ensures multiset(s)[x] <= 1
  {
    if s != [] {
      assert s == [s[0]] + s[1..];
      OnceOnly(s[1..], x);
      if s[0] == x {
        assert x !in s[1..];
      }
    }
  }
}
