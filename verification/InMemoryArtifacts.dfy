/** `InMemoryArtifactService`: one map from path texts to versions. */
module InMemoryArtifacts {
  import opened Wrappers
  import opened Orderings
  import opened ArtifactKeys
  import opened ArtifactSpec
  import opened ArtifactReferences
  import Uri = ArtifactUri
  import opened Base64

  predicate SameName(p: string, q: string, app: string, user: string, session: string) {
    ListedName(p, app, user, session).Some? &&
    ListedName(p, app, user, session) == ListedName(q, app, user, session)
  }

  /** No two of the paths are listed under one name. */
  ghost predicate NamedOnce(paths: set<string>, app: string, user: string, session: string) {
    forall p, q :: p in paths && q in paths && SameName(p, q, app, user, session) ==> p == q
  }

  ghost predicate ListedIn(paths: set<string>, app: string, user: string, session: string, name: string) {
    exists p :: p in paths && ListedName(p, app, user, session) == Some(name)
  }

  /** `names` are the names under which the paths are listed. */
  ghost predicate Collected(names: seq<string>, paths: set<string>, app: string, user: string, session: string) {
    (forall n :: n in names <==> ListedIn(paths, app, user, session, n)) &&
    (NamedOnce(paths, app, user, session) ==> NoRepeats(names))
  }

  lemma CollectStep(names: seq<string>, paths: set<string>, path: string, app: string, user: string, session: string)
    requires Collected(names, paths, app, user, session) && path !in paths
    ensures var name := ListedName(path, app, user, session);
            Collected(if name.Some? then names + [name.value] else names, paths + {path}, app, user, session)
  {
    hide ListedName;
    var name := ListedName(path, app, user, session);
    var names' := if name.Some? then names + [name.value] else names;
    var paths' := paths + {path};
    forall n ensures n in names' <==> ListedIn(paths', app, user, session, n) {
      if n in names' {
        if n in names {
          assert ListedIn(paths, app, user, session, n);
        } else {
          assert path in paths' && name == Some(n);
        }
      }
    }
    assert name.Some? && name.value in names ==> ListedIn(paths, app, user, session, name.value);
    if NamedOnce(paths', app, user, session) {
      assert NamedOnce(paths, app, user, session);
    }
  }

  class InMemoryArtifactService {
    var artifacts: Entries
    /** Whether a save has panicked with the lock in its hands, after which every operation does. */
    var poisoned: bool

    constructor ()
      ensures artifacts == map[] && !poisoned
    {
      artifacts, poisoned := map[], false;
    }

    method SaveArtifact(app: string, user: string, session: string, filename: string, part: Part)
      returns (r: Result<int, string>)
      modifies this
      ensures var path := ArtifactPath(app, user, filename, session);
              if path.None? || old(poisoned) then r.Err? && artifacts == old(artifacts) && poisoned == old(poisoned)
              else
                var versions := EntriesAt(old(artifacts), path.value);
                if part.NoContent? || !MayRefer(app, user, session, part) then
                  r.Err? && poisoned && artifacts == old(artifacts)[path.value := versions]
                else
                  r == Ok(|versions|) && !poisoned && artifacts == old(artifacts)[path.value := versions + [part]]
    {
      var path := ArtifactPath(app, user, filename, session);
      if path.None? { return Err("invalid id"); }
      if poisoned { return Err("poisoned"); }
      if path.value !in artifacts {
        artifacts := artifacts[path.value := []];
      }
      var version := |artifacts[path.value]|;
      if part.NoContent? || !MayRefer(app, user, session, part) {
        poisoned := true;
        return Err("not supported or out of scope");
      }
      artifacts := artifacts[path.value := artifacts[path.value] + [part]];
      r := Ok(version);
    }

    /** `load_artifact`: references are followed, if they come to an end within `depth` steps. */
    method LoadArtifact(app: string, user: string, session: string, filename: string, version: Option<int>,
                        ghost depth: nat)
      returns (r: Result<Option<Part>, string>)
      requires !poisoned ==> Follow(artifacts, Request(app, user, session, filename, version), depth).Some?
      ensures poisoned ==> r.Err?
      ensures !poisoned ==>
                match Follow(artifacts, Request(app, user, session, filename, version), depth).value
                case Panics => r.Err?
                case Missing => r == Ok(None)
                case Finds(part) => r == Ok(Some(part))
                case Refers(_) => false
      decreases depth
    {
      ghost var q := Request(app, user, session, filename, version);
      NoStep(artifacts, q);
      FollowUnfolds(artifacts, q, depth);
      hide LoadStep, Follow, ArtifactPath, EntryOf, Uri.Parse;
      var path := ArtifactPath(app, user, filename, session);
      if path.None? { return Err("invalid id"); }
      if poisoned { return Err("poisoned"); }
      if path.value !in artifacts { return Ok(None); }
      var versions := artifacts[path.value];
      if versions == [] { return Ok(None); }
      var index := |versions| - 1;
      if version.Some? {
        if version.value < 0 || version.value >= |versions| { return Ok(None); }
        index := version.value;
      }
      StepAt(artifacts, q, path.value, index);
      if IsReference(versions[index]) {
        var ref := Uri.Parse(versions[index].uri.value);
        if ref.None? { return Err("invalid artifact reference"); }
        if !InScope(app, user, session, ref.value) { return Err("reference out of scope"); }
        var session' := if ref.value.session.Some? then ref.value.session.value else session;
        r := LoadArtifact(ref.value.app, ref.value.user, session', ref.value.filename, Some(AsI64(ref.value.version)),
                          depth - 1);
        return;
      }
      if IsEmptyArtifact(versions[index]) { return Ok(None); }
      r := Ok(Some(versions[index]));
    }

    method DeleteArtifact(app: string, user: string, session: string, filename: string)
      returns (r: Result<(), string>)
      modifies this
      ensures poisoned == old(poisoned)
      ensures var path := ArtifactPath(app, user, filename, session);
              if path.None? || poisoned then r.Err? && artifacts == old(artifacts)
              else r == Ok(()) && artifacts == old(artifacts) - {path.value}
    {
      var path := ArtifactPath(app, user, filename, session);
      if path.None? { return Err("invalid id"); }
      if poisoned { return Err("poisoned"); }
      artifacts := artifacts - {path.value};
      r := Ok(());
    }

    method ListVersions(app: string, user: string, session: string, filename: string)
      returns (r: Result<seq<int>, string>)
      ensures var path := ArtifactPath(app, user, filename, session);
              if path.None? || poisoned then r.Err? else r == Ok(UpTo(|EntriesAt(artifacts, path.value)|))
    {
      var path := ArtifactPath(app, user, filename, session);
      if path.None? { return Err("invalid id"); }
      if poisoned { return Err("poisoned"); }
      r := Ok(if path.value in artifacts then UpTo(|artifacts[path.value]|) else []);
    }

    method ListArtifactKeys(app: string, user: string, session: string) returns (r: Result<seq<string>, string>)
      ensures r.Err? <==> poisoned
      ensures r.Ok? ==> Sorted(r.value, StrLeq) && Collected(r.value, artifacts.Keys, app, user, session)
    {
      if poisoned { return Err("poisoned"); }
      var found: seq<string> := [];
      var todo := artifacts.Keys;
      while todo != {}
        invariant todo <= artifacts.Keys && Collected(found, artifacts.Keys - todo, app, user, session)
        decreases |todo|
      {
        hide ListedName, Collected;
        var path :| path in todo;
        var name := ListedName(path, app, user, session);
        CollectStep(found, artifacts.Keys - todo, path, app, user, session);
        assert artifacts.Keys - todo + {path} == artifacts.Keys - (todo - {path});
        todo := todo - {path};
        if name.Some? {
          found := found + [name.value];
        }
      }
      assert artifacts.Keys - todo == artifacts.Keys;
      var names := Sort(found, StrLeq);
      StrOrder();
      SortKeeps(found, StrLeq);
      r := Ok(names);
    }
  }

  // ----- The map behaves as a map on keys -----

  /** The path-keyed map holds exactly what the key-keyed store does. */
  ghost predicate Represents(m: Entries, a: Store) {
    (forall k :: k in a ==> PlainKey(k) && PathText(k) in m && m[PathText(k)] == a[k]) &&
    (forall p :: p in m ==> exists k :: k in a && PathText(k) == p)
  }

  lemma PathOfKey(app: string, user: string, session: string, filename: string)
    requires PlainKey(KeyOf(app, user, session, filename))
    ensures ArtifactPath(app, user, filename, session) == Some(PathText(KeyOf(app, user, session, filename)))
  {
  }

  lemma LookupRefines(m: Entries, a: Store, k: Key)
    requires Represents(m, a) && PlainKey(k)
    ensures EntriesAt(m, PathText(k)) == VersionsOf(a, k)
    ensures PathText(k) in m <==> k in a
  {
    if PathText(k) in m {
      var k' :| k' in a && PathText(k') == PathText(k);
      PathInjective(k, k');
    }
  }

  lemma UpdateRefines(m: Entries, a: Store, k: Key, versions: seq<Part>)
    requires Represents(m, a) && PlainKey(k)
    ensures Represents(m[PathText(k) := versions], a[k := versions])
  {
    hide PathText, PlainKey;
    var a', m' := a[k := versions], m[PathText(k) := versions];
    forall k' | k' in a' ensures PlainKey(k') && PathText(k') in m' && m'[PathText(k')] == a'[k'] {
      if k' != k { PathInjective(k, k'); }
    }
    forall p | p in m' ensures exists k' :: k' in a' && PathText(k') == p {
      if p == PathText(k) {
        assert k in a';
      } else {
        var k' :| k' in a && PathText(k') == p;
        assert k' in a';
      }
    }
  }

  lemma AddRefines(m: Entries, a: Store, k: Key, part: Part)
    requires Represents(m, a) && PlainKey(k)
    ensures Represents(m[PathText(k) := EntriesAt(m, PathText(k)) + [part]], a[k := VersionsOf(a, k) + [part]])
  {
    hide *;
    LookupRefines(m, a, k);
    UpdateRefines(m, a, k, VersionsOf(a, k) + [part]);
  }

  lemma RemoveRefines(m: Entries, a: Store, k: Key)
    requires Represents(m, a) && PlainKey(k)
    ensures Represents(m - {PathText(k)}, a - {k})
  {
    var a', m' := a - {k}, m - {PathText(k)};
    hide PathText, PlainKey;
    forall k' | k' in a' ensures PlainKey(k') && PathText(k') in m' && m'[PathText(k')] == a'[k'] {
      PathInjective(k, k');
    }
    forall p | p in m' ensures exists k' :: k' in a' && PathText(k') == p {
      var k' :| k' in a && PathText(k') == p;
      assert k' in a';
    }
  }

  /** Exactly the names under the session, the user and a session called `user` are listed. */
  lemma ListRefines(m: Entries, a: Store, app: string, user: string, session: string, name: string)
    requires Represents(m, a) && '/' !in app && '/' !in user && '/' !in session
    ensures ListedIn(m.Keys, app, user, session, name) <==>
            exists k :: k in a && k.app == app && k.user == user && Shown(k.scope, session) && k.filename == name
  {
    hide PathText, PlainKey, Shown, ListedName;
    if ListedIn(m.Keys, app, user, session, name) {
      var p :| p in m && ListedName(p, app, user, session) == Some(name);
      var k :| k in a && PathText(k) == p;
      ListedExactly(k, app, user, session);
    }
    if k :| k in a && k.app == app && k.user == user && Shown(k.scope, session) && k.filename == name {
      ListedExactly(k, app, user, session);
      assert PathText(k) in m.Keys;
    }
  }

  lemma ScopeFromName(k: Key, l: Key)
    requires PlainKey(k) && PlainKey(l) && k.filename == l.filename
    ensures k.scope.UserScope? == l.scope.UserScope?
  {
    hide ValidId, UserNamed;
  }

  lemma ShownOnce(k: Key, l: Key, session: string)
    requires k.app == l.app && k.user == l.user && k.filename == l.filename
    requires k.scope.UserScope? == l.scope.UserScope?
    requires Shown(k.scope, session) && Shown(l.scope, session)
    requires k.scope != SessionScope("user") && l.scope != SessionScope("user")
    ensures k == l
  {
  }

  /** A session sees every name once unless a session called `user` stores one of the same name. */
  lemma NamedOnceRefines(m: Entries, a: Store, app: string, user: string, session: string)
    requires Represents(m, a) && '/' !in app && '/' !in user && '/' !in session
    requires forall k :: k in a ==> k.scope != SessionScope("user")
    ensures NamedOnce(m.Keys, app, user, session)
  {
    hide PathText, ListedName, PlainKey, Shown;
    forall p, q | p in m && q in m && SameName(p, q, app, user, session) ensures p == q {
      var k :| k in a && PathText(k) == p;
      var l :| l in a && PathText(l) == q;
      ListedExactly(k, app, user, session);
      ListedExactly(l, app, user, session);
      ScopeFromName(k, l);
      ShownOnce(k, l, session);
    }
  }

  lemma FaithfulNotEmpty(part: Part)
    requires Faithful(part)
    ensures !IsEmptyArtifact(part) && !IsReference(part) && !part.NoContent?
  {
    if part.Inline? {
      var bytes: seq<Byte> :| bytes != [] && part.blob.data.value == Encode(bytes);
      EncodedLength(bytes);
    }
  }
}
