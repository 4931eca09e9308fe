/** The two artifact stores side by side: over every history they give the same, right answers. */
module ArtifactStores {
  import opened Wrappers
  import opened Orderings
  import opened ArtifactKeys
  import opened ArtifactSpec
  import opened FileTree
  import opened ArtifactLayout
  import opened ArtifactReferences
  import opened InMemoryArtifacts
  import opened FileArtifacts

  /** The store after a history that begins empty. */
  function After(ops: seq<Op>): Store {
    if ops == [] then map[] else Apply(After(ops[..|ops| - 1]), ops[|ops| - 1])
  }

  lemma {:induction false} AfterIsGood(ops: seq<Op>)
    requires forall i :: 0 <= i < |ops| ==> GoodOp(ops[i])
    ensures GoodStore(After(ops))
  {
    if ops != [] {
      AfterIsGood(ops[..|ops| - 1]);
      GoodStays(After(ops[..|ops| - 1]), ops[|ops| - 1]);
    }
  }

  function SaveReply(r: Result<int, string>): Reply {
    if r.Ok? then Saved(r.value) else Refused
  }

  /** The version is given as it is. */
  predicate IsPlain(part: Part) {
    !IsReference(part) && !IsEmptyArtifact(part)
  }

  method RunInMemory(store: InMemoryArtifactService, op: Op, ghost a: Store) returns (reply: Reply)
    requires Represents(store.artifacts, a) && !store.poisoned && GoodStore(a) && GoodOp(op)
    modifies store
    ensures Answers(a, op, reply) && Represents(store.artifacts, Apply(a, op)) && !store.poisoned
  {
    MemoryRefines(store.artifacts, a, op);
    hide Represents, GoodOp, GoodStore, GoodKey, PathText, ArtifactPath, Follow, MayRefer, Collected, Lists;
    match op {
      case Save(app, user, session, filename, part) =>
        var r := store.SaveArtifact(app, user, session, filename, part);
        reply := SaveReply(r);
      case Load(app, user, session, filename, version) =>
        var r := store.LoadArtifact(app, user, session, filename, version, 0);
        reply := if r.Ok? then Loaded(r.value) else Refused;
      case Delete(app, user, session, filename) =>
        var r := store.DeleteArtifact(app, user, session, filename);
        reply := if r.Ok? then Deleted else Refused;
      case ListVersions(app, user, session, filename) =>
        var r := store.ListVersions(app, user, session, filename);
        reply := if r.Ok? then Versions(r.value) else Refused;
      case ListKeys(app, user, session) =>
        var r := store.ListArtifactKeys(app, user, session);
        ListingIsRight(store.artifacts, a, app, user, session, r.value);
        reply := Names(r.value);
    }
  }

  /** What the path-keyed map does for an operation, in terms of the store it represents. */
  lemma MemoryRefines(m: Entries, a: Store, op: Op)
    requires Represents(m, a) && GoodStore(a) && GoodOp(op)
    ensures !op.ListKeys? ==>
              var path := ArtifactPath(op.app, op.user, op.filename, op.session);
              path.Some? && EntriesAt(m, path.value) == VersionsOf(a, KeyFor(op)) &&
              (op.Save? ==> Represents(m[path.value := EntriesAt(m, path.value) + [op.part]], Apply(a, op))) &&
              (op.Delete? ==> Represents(m - {path.value}, Apply(a, op))) &&
              (op.Save? ==> !op.part.NoContent? && MayRefer(op.app, op.user, op.session, op.part)) &&
              (op.Load? ==>
                 var versions := VersionsOf(a, KeyFor(op));
                 var i := VersionIndex(|versions|, op.version);
                 Follow(m, Request(op.app, op.user, op.session, op.filename, op.version), 0) ==
                 Some(if i.Some? then Finds(versions[i.value]) else Missing))
    ensures op.ListKeys? ==> NoUserSession(a) && '/' !in op.app && '/' !in op.user && '/' !in op.session && op.session != "user"
  {
    if op.ListKeys? {
      NoUserSessions(a);
    } else {
      var k := KeyFor(op);
      assert PlainKey(k);
      PathOfKey(op.app, op.user, op.session, op.filename);
      LookupRefines(m, a, k);
      RemoveRefines(m, a, k);
      hide Represents, GoodKey, PlainKey, PathText, Faithful, IsEmptyArtifact, ArtifactPath, Follow;
      if op.Save? {
        AddRefines(m, a, k, op.part);
        FaithfulNotEmpty(op.part);
        PlainMayRefer(op.app, op.user, op.session, op.part);
      }
      if op.Load? {
        forall i | 0 <= i < |VersionsOf(a, k)| ensures IsPlain(VersionsOf(a, k)[i]) {
          FaithfulNotEmpty(VersionsOf(a, k)[i]);
        }
        PlainLoad(m, Request(op.app, op.user, op.session, op.filename, op.version));
      }
    }
  }

  lemma PlainMayRefer(app: string, user: string, session: string, part: Part)
    requires !IsReference(part)
    ensures MayRefer(app, user, session, part)
  {
  }

  /** A load of what is no reference and not empty ends at once. */
  lemma PlainLoad(m: Entries, q: Request)
    requires PathOf(q).Some?
    requires var versions := EntriesAt(m, PathOf(q).value);
             forall i :: 0 <= i < |versions| ==> IsPlain(versions[i])
    ensures var versions := EntriesAt(m, PathOf(q).value);
            var i := VersionIndex(|versions|, q.version);
            Follow(m, q, 0) == Some(if i.Some? then Finds(versions[i.value]) else Missing)
  {
    hide LoadStep, PathOf, Follow, IsReference, IsEmptyArtifact;
    var path := PathOf(q).value;
    var i := VersionIndex(|EntriesAt(m, path)|, q.version);
    FollowUnfolds(m, q, 0);
    NoStep(m, q);
    if i.Some? {
      StepAt(m, q, path, i.value);
      assert IsPlain(m[path][i.value]);
    }
  }

  ghost predicate NoUserSession(a: Store) {
    forall k :: k in a ==> k.scope != SessionScope("user")
  }

  lemma NoUserSessions(a: Store)
    requires GoodStore(a)
    ensures NoUserSession(a)
  {
    hide NormalName, PlainKey, Faithful;
  }

  lemma NameIsShown(m: Entries, a: Store, app: string, user: string, session: string, n: string)
    requires Represents(m, a) && NoUserSession(a) && session != "user"
    requires '/' !in app && '/' !in user && '/' !in session
    ensures ListedIn(m.Keys, app, user, session, n) <==> n in NamesIn(a, app, user, session)
  {
    hide Represents, ListedIn;
    ListRefines(m, a, app, user, session, n);
    if n in NamesIn(a, app, user, session) {
      var k :| k in a && k.app == app && k.user == user &&
               (k.scope.UserScope? || k.scope == SessionScope(session)) && k.filename == n;
      assert Shown(k.scope, session);
    }
  }

  /** The names listed are exactly those of the session and its user, in order. */
  lemma ListingIsRight(m: Entries, a: Store, app: string, user: string, session: string, names: seq<string>)
    requires Represents(m, a) && NoUserSession(a) && session != "user"
    requires '/' !in app && '/' !in user && '/' !in session
    requires Sorted(names, StrLeq) && Collected(names, m.Keys, app, user, session)
    ensures Lists(names, NamesIn(a, app, user, session))
  {
    NamedOnceRefines(m, a, app, user, session);
    hide Represents, ListedIn, NamedOnce, Sorted, Lists, NamesIn, NoUserSession, NoRepeats;
    forall n ensures n in names <==> n in NamesIn(a, app, user, session) {
      NameIsShown(m, a, app, user, session, n);
    }
    SortedListing(names, NamesIn(a, app, user, session));
  }

  // ----- The file store -----

  /** Any operation on keys that lead to their places, whatever the part that a save is given. */
  ghost predicate DiskOp(op: Op) {
    match op
    case ListKeys(app, user, session) => PlainId(app) && PlainId(user) && PlainId(session)
    case _ => GoodKey(KeyFor(op))
  }

  /** A save of what the file store cannot keep. */
  predicate FailingSave(op: Op) {
    op.Save? && KeptAs(op.part).None?
  }

  /**
   * What is on disk after an operation: a save adds the part that is kept of the one it is given, and a
   * failed save leaves its artifact there, with the versions it had.
   */
  function ApplyOnDisk(a: Store, op: Op): Store {
    if FailingSave(op) then a[KeyFor(op) := VersionsOf(a, KeyFor(op))]
    else if op.Save? then a[KeyFor(op) := VersionsOf(a, KeyFor(op)) + [KeptAs(op.part).value]]
    else Apply(a, op)
  }

  ghost predicate AnswersOnDisk(a: Store, op: Op, reply: Reply) {
    if FailingSave(op) then reply == Refused else Answers(a, op, reply)
  }

  method RunOnDisk(store: FileArtifactService, op: Op, ghost a: Store) returns (reply: Reply)
    requires Layout(store.fs, a) && DiskOp(op)
    modifies store
    ensures AnswersOnDisk(a, op, reply) && Layout(store.fs, ApplyOnDisk(a, op))
  {
    hide Layout, GoodKey, KeptAs, ComesBackAs, Lists, PlainId;
    match op {
      case Save(app, user, session, filename, part) =>
        var r := store.SaveArtifact(app, user, session, filename, part, a);
        reply := SaveReply(r);
      case Load(app, user, session, filename, version) =>
        var r := store.LoadArtifact(app, user, session, filename, version, a);
        reply := if r.Ok? then Loaded(r.value) else Refused;
      case Delete(app, user, session, filename) =>
        var r := store.DeleteArtifact(app, user, session, filename, a);
        reply := if r.Ok? then Deleted else Refused;
      case ListVersions(app, user, session, filename) =>
        var r := store.ListVersions(app, user, session, filename, a);
        reply := if r.Ok? then Versions(r.value) else Refused;
      case ListKeys(app, user, session) =>
        var names := store.ListArtifactKeys(app, user, session, a);
        reply := Names(names);
    }
  }

  /** On disk, loading right after a save gives what is kept of the part saved. */
  lemma LoadAfterSaveOnDisk(a: Store, save: Op, reply: Reply)
    requires save.Save? && !FailingSave(save)
    requires Answers(ApplyOnDisk(a, save), Load(save.app, save.user, save.session, save.filename, None), reply)
    ensures reply.Loaded? && reply.part.Some? && ComesBackAs(save.part, reply.part.value)
  {
    KeptAsExact(save.part);
    LoadAfterSave(a, save.(part := KeptAs(save.part).value), None, reply);
  }

  /** What the in-memory store gives back of a part that is no reference. */
  function RecalledAs(part: Part): Option<Part> {
    if IsEmptyArtifact(part) then None else Some(part)
  }

  /** Of what the file store can keep, the two stores give the same back exactly if it is faithful. */
  lemma FaithfulExactly(part: Part)
    ensures KeptAs(part).Some? ==> (RecalledAs(part) == KeptAs(part) <==> Faithful(part))
    ensures Faithful(part) ==> KeptAs(part).Some?
  {
    KeptAsExact(part);
    KeptWholeExact(part);
    if Faithful(part) {
      FaithfulIsKept(part);
      FaithfulNotEmpty(part);
    }
  }

  method RunFiles(store: FileArtifactService, op: Op, ghost a: Store) returns (reply: Reply)
    requires Layout(store.fs, a) && GoodOp(op)
    modifies store
    ensures Answers(a, op, reply) && Layout(store.fs, Apply(a, op))
  {
    if op.Save? {
      FaithfulIsKept(op.part);
    }
    hide Layout, GoodKey, Faithful, KeptAs, Answers;
    reply := RunOnDisk(store, op, a);
  }

  // ----- Both stores -----

  method RunBoth(memory: InMemoryArtifactService, files: FileArtifactService, op: Op, ghost a: Store)
    returns (m: Reply, f: Reply)
    requires Represents(memory.artifacts, a) && !memory.poisoned && Layout(files.fs, a) && GoodStore(a) && GoodOp(op)
    modifies memory, files
    ensures m == f && Answers(a, op, f)
    ensures Represents(memory.artifacts, Apply(a, op)) && !memory.poisoned && Layout(files.fs, Apply(a, op))
  {
    hide GoodOp, GoodStore, Layout, Answers, Represents, Apply;
    m := RunInMemory(memory, op, a);
    f := RunFiles(files, op, a);
    AnswerUnique(a, op, m, f);
  }

  lemma BeginEmpty(ops: seq<Op>)
    ensures Layout(EMPTY_DIR, map[]) && Represents(map[], map[]) && After(ops[..0]) == map[]
  {
    EmptyLayout();
    hide Layout;
  }

  lemma AfterStep(ops: seq<Op>, i: nat)
    requires i < |ops|
    ensures After(ops[..i + 1]) == Apply(After(ops[..i]), ops[i])
  {
    assert ops[..i + 1][..i] == ops[..i];
  }

  /**
   * Over every history of saves, loads, deletes and listings, the two stores give the same answers,
   * and they are the ones the numbered versions call for.
   */
  method Replay(memory: InMemoryArtifactService, files: FileArtifactService, ops: seq<Op>)
    returns (fromMemory: seq<Reply>, fromFiles: seq<Reply>)
    requires memory.artifacts == map[] && !memory.poisoned && files.fs == EMPTY_DIR
    requires forall i :: 0 <= i < |ops| ==> GoodOp(ops[i])
    modifies memory, files
    ensures fromMemory == fromFiles && |fromFiles| == |ops|
    ensures forall i :: 0 <= i < |ops| ==> Answers(After(ops[..i]), ops[i], fromFiles[i])
    ensures Represents(memory.artifacts, After(ops)) && Layout(files.fs, After(ops))
  {
    fromMemory, fromFiles := [], [];
    ghost var a: Store := map[];
    BeginEmpty(ops);
    hide *;
    var i := 0;
    while i < |ops|
      invariant 0 <= i <= |ops| && |fromFiles| == i && fromMemory == fromFiles && a == After(ops[..i])
      invariant forall j :: 0 <= j < i ==> Answers(After(ops[..j]), ops[j], fromFiles[j])
      invariant Represents(memory.artifacts, a) && !memory.poisoned && Layout(files.fs, a)
    {
      AfterIsGood(ops[..i]);
      AfterStep(ops, i);
      var m, f := RunBoth(memory, files, ops[i], a);
      fromMemory, fromFiles := fromMemory + [m], fromFiles + [f];
      a := Apply(a, ops[i]);
      i := i + 1;
    }
    assert ops[..i] == ops;
  }

  // ----- Where the stores differ -----

  /**
   * A filename with a NUL that is otherwise accepted: the in-memory store saves a text under it, and
   * the file store refuses it, for the system does.
   */
  method SaveUnderNul(memory: InMemoryArtifactService, files: FileArtifactService, app: string, user: string,
                      session: string, filename: string, text: string)
    returns (m: Reply, f: Reply)
    requires !memory.poisoned && ValidId(app) && ValidId(user) && ValidId(session)
    requires Segments(filename).Some? && '\0' in filename
    modifies memory, files
    ensures ArtifactPath(app, user, filename, session).Some?
    ensures m == Saved(|EntriesAt(old(memory.artifacts), ArtifactPath(app, user, filename, session).value)|)
    ensures f == Refused && files.fs == old(files.fs)
  {
    hide Segments, ValidId;
    var r := memory.SaveArtifact(app, user, session, filename, Text(text));
    m := SaveReply(r);
    r := files.SaveArtifact(app, user, session, filename, Text(text), map[]);
    f := SaveReply(r);
  }

  // ----- The file store over all parts -----

  function OnDiskAfter(ops: seq<Op>): Store {
    if ops == [] then map[] else ApplyOnDisk(OnDiskAfter(ops[..|ops| - 1]), ops[|ops| - 1])
  }

  lemma OnDiskStep(ops: seq<Op>, i: nat)
    requires i < |ops|
    ensures OnDiskAfter(ops[..i + 1]) == ApplyOnDisk(OnDiskAfter(ops[..i]), ops[i])
  {
    assert ops[..i + 1][..i] == ops[..i];
  }

  lemma NothingOnDisk(ops: seq<Op>)
    ensures OnDiskAfter(ops[..0]) == map[]
  {
  }

  /**
   * The file store over every history of saves of any parts, loads, deletes and listings: a save of what
   * it cannot keep is refused, leaves the versions as they were and its artifact among the names, and
   * all other answers are right, where loads give back what is kept of the parts saved.
   */
  method ReplayOnDisk(store: FileArtifactService, ops: seq<Op>) returns (replies: seq<Reply>)
    requires store.fs == EMPTY_DIR
    requires forall i :: 0 <= i < |ops| ==> DiskOp(ops[i])
    modifies store
    ensures |replies| == |ops|
    ensures forall i :: 0 <= i < |ops| ==> AnswersOnDisk(OnDiskAfter(ops[..i]), ops[i], replies[i])
    ensures Layout(store.fs, OnDiskAfter(ops))
  {
    replies := [];
    ghost var a: Store := map[];
    BeginEmpty(ops);
    NothingOnDisk(ops);
    hide *;
    var i := 0;
    while i < |ops|
      invariant 0 <= i <= |ops| && |replies| == i && a == OnDiskAfter(ops[..i])
      invariant forall j :: 0 <= j < i ==> AnswersOnDisk(OnDiskAfter(ops[..j]), ops[j], replies[j])
      invariant Layout(store.fs, a)
    {
      OnDiskStep(ops, i);
      var reply := RunOnDisk(store, ops[i], a);
      replies := replies + [reply];
      a := ApplyOnDisk(a, ops[i]);
      i := i + 1;
    }
    assert ops[..i] == ops;
  }
}
