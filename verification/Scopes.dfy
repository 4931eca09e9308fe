/** The scopes of a session's state: keys prefixed `app:`, `user:` or `temp:`, and all others. */
module Scopes {
  import opened Events

  const APP_PREFIX := "app:"
  const USER_PREFIX := "user:"
  const TEMP_PREFIX := "temp:"

  predicate IsTemp(key: string) {
    TEMP_PREFIX <= key
  }

  /** A key that belongs to the session alone and is kept. */
  predicate IsPlain(key: string) {
    !(APP_PREFIX <= key) && !(USER_PREFIX <= key) && !(TEMP_PREFIX <= key)
  }

  /** `m` holds what `state` files under `prefix`, under the unprefixed keys. */
  ghost predicate IsShare(prefix: string, m: StateMap, state: StateMap) {
    forall k :: (k in m <==> prefix + k in state) && (k in m ==> m[k] == state[prefix + k])
  }

  /** The share of `state` under `prefix`. */
  ghost function Share(prefix: string, state: StateMap): (m: StateMap)
    ensures IsShare(prefix, m, state)
  {
    ShareExists(prefix, state);
    var m :| IsShare(prefix, m, state);
    m
  }

  lemma ShareExists(prefix: string, state: StateMap)
    ensures exists m :: IsShare(prefix, m, state)
  {
    var keys := set key <- state.Keys | prefix <= key :: key[|prefix|..];
    var m := map k | k in keys && prefix + k in state :: state[prefix + k];
    forall k ensures (k in m <==> prefix + k in state) && (k in m ==> m[k] == state[prefix + k]) {
      if prefix + k in state {
        assert (prefix + k)[|prefix|..] == k;
        assert (prefix + k)[|prefix|..] in keys;
      }
    }
    assert IsShare(prefix, m, state);
  }

  /** The session's own share of `state`. */
  function PlainShare(state: StateMap): StateMap {
    map key | key in state && IsPlain(key) :: state[key]
  }

  /** `m` holds the entries of `shared` as every reader sees them: under prefixed keys. */
  ghost predicate IsPrefixed(prefix: string, m: StateMap, shared: StateMap) {
    forall key ::
      (key in m <==> prefix <= key && key[|prefix|..] in shared) &&
      (key in m ==> m[key] == shared[key[|prefix|..]])
  }

  /** The inverse of `Share`. */
  ghost function Prefixed(prefix: string, shared: StateMap): (m: StateMap)
    ensures IsPrefixed(prefix, m, shared)
  {
    PrefixedExists(prefix, shared);
    var m :| IsPrefixed(prefix, m, shared);
    m
  }

  lemma PrefixedExists(prefix: string, shared: StateMap)
    ensures exists m :: IsPrefixed(prefix, m, shared)
  {
    var keys := set k <- shared.Keys :: prefix + k;
    var m := map key | key in keys && prefix <= key && key[|prefix|..] in shared :: shared[key[|prefix|..]];
    forall key
      ensures (key in m <==> prefix <= key && key[|prefix|..] in shared) &&
              (key in m ==> m[key] == shared[key[|prefix|..]])
    {
      if prefix <= key && key[|prefix|..] in shared {
        assert prefix + key[|prefix|..] == key;
        assert key in keys;
      }
    }
    assert IsPrefixed(prefix, m, shared);
  }

  /** The entries of `state` whose keys bear `prefix`. */
  function Restrict(prefix: string, state: StateMap): StateMap {
    map key | key in state && prefix <= key :: state[key]
  }

  function WithoutTemp(state: StateMap): StateMap {
    map key | key in state && !IsTemp(key) :: state[key]
  }

  lemma OneScope(key: string)
    ensures APP_PREFIX <= key ==> !(USER_PREFIX <= key) && !IsTemp(key)
    ensures USER_PREFIX <= key ==> !IsTemp(key)
  {
    assert APP_PREFIX <= key ==> key[0] == 'a';
    assert USER_PREFIX <= key ==> key[0] == 'u';
    assert TEMP_PREFIX <= key ==> key[0] == 't';
  }

  /** `m` holds what `state` files under `prefix`, the keys in `todo` excepted. */
  ghost predicate IsShareBut(prefix: string, m: StateMap, state: StateMap, todo: set<string>) {
    forall k :: (k in m <==> prefix + k in state && prefix + k !in todo) && (k in m ==> m[k] == state[prefix + k])
  }

  ghost predicate IsPlainBut(m: StateMap, state: StateMap, todo: set<string>) {
    forall k :: (k in m <==> k in state && k !in todo && IsPlain(k)) && (k in m ==> m[k] == state[k])
  }

  lemma ShareGrows(prefix: string, m: StateMap, state: StateMap, todo: set<string>, key: string)
    requires IsShareBut(prefix, m, state, todo) && key in state && key in todo
    ensures IsShareBut(prefix, if prefix <= key then m[key[|prefix|..] := state[key]] else m, state, todo - {key})
  {
    assert prefix <= key ==> prefix + key[|prefix|..] == key;
    var m' := if prefix <= key then m[key[|prefix|..] := state[key]] else m;
    forall k
      ensures k in m' <==> prefix + k in state && prefix + k !in todo - {key}
      ensures k in m' ==> m'[k] == state[prefix + k]
    {
      assert (prefix + k)[|prefix|..] == k;
    }
  }

  lemma ShareIsUnique(prefix: string, m: StateMap, state: StateMap)
    requires IsShareBut(prefix, m, state, {})
    ensures m == Share(prefix, state)
  {
  }

  /** Files one entry of a flat state under its scope; what is transient is dropped. */
  method FileEntry(state: StateMap, key: string, ghost todo: set<string>, app: StateMap, user: StateMap, session: StateMap)
    returns (app': StateMap, user': StateMap, session': StateMap)
    requires key in state && key in todo
    requires IsShareBut(APP_PREFIX, app, state, todo) && IsShareBut(USER_PREFIX, user, state, todo)
    requires IsPlainBut(session, state, todo)
    ensures IsShareBut(APP_PREFIX, app', state, todo - {key}) && IsShareBut(USER_PREFIX, user', state, todo - {key})
    ensures IsPlainBut(session', state, todo - {key})
  {
    app', user', session' := app, user, session;
    OneScope(key);
    ShareGrows(APP_PREFIX, app, state, todo, key);
    ShareGrows(USER_PREFIX, user, state, todo, key);
    if APP_PREFIX <= key {
      app' := app[key[|APP_PREFIX|..] := state[key]];
    } else if USER_PREFIX <= key {
      user' := user[key[|USER_PREFIX|..] := state[key]];
    } else if !(TEMP_PREFIX <= key) {
      session' := session[key := state[key]];
    }
  }

  /** The loop that splits a flat state into its three shares. */
  method ExtractStateDelta(state: StateMap) returns (app: StateMap, user: StateMap, session: StateMap)
    ensures app == Share(APP_PREFIX, state) && user == Share(USER_PREFIX, state) && session == PlainShare(state)
  {
    app, user, session := map[], map[], map[];
    var todo := state.Keys;
    while todo != {}
      invariant todo <= state.Keys
      invariant IsShareBut(APP_PREFIX, app, state, todo) && IsShareBut(USER_PREFIX, user, state, todo)
      invariant IsPlainBut(session, state, todo)
      decreases |todo|
    {
      var key :| key in todo;
      app, user, session := FileEntry(state, key, todo, app, user, session);
      todo := todo - {key};
    }
    ShareIsUnique(APP_PREFIX, app, state);
    ShareIsUnique(USER_PREFIX, user, state);
  }

  /** The loop that lays a shared map over a session's state, under prefixed keys. */
  method Overlay(prefix: string, state: StateMap, shared: StateMap) returns (merged: StateMap)
    ensures merged == state + Prefixed(prefix, shared)
  {
    merged := state;
    var todo := shared.Keys;
    while todo != {}
      invariant todo <= shared.Keys
      invariant forall key :: key in merged <==>
                  key in state || (prefix <= key && key[|prefix|..] in shared && key[|prefix|..] !in todo)
      invariant forall key :: key in merged ==>
                  merged[key] == if prefix <= key && key[|prefix|..] in shared && key[|prefix|..] !in todo
                                 then shared[key[|prefix|..]] else state[key]
      decreases |todo|
    {
      var k :| k in todo;
      assert (prefix + k)[|prefix|..] == k;
      assert forall key: string :: prefix <= key && key[|prefix|..] == k ==> key == prefix + k;
      merged := merged[prefix + k := shared[k]];
      todo := todo - {k};
    }
  }
}
