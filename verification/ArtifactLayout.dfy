/** Where the file store keeps what: the tree that a store's contents amount to. */
module ArtifactLayout {
  import opened Wrappers
  import opened Strings
  import opened Decimals
  import opened Base64
  import opened ArtifactKeys
  import opened ArtifactSpec
  import opened FileTree

  const VERSIONS := "versions"
  const METADATA := "metadata.json"

  // ----- Paths -----

  /** Whose artifacts a directory holds. */
  datatype Place = Place(app: string, user: string, scope: Scope)

  function PlaceOf(k: Key): Place {
    Place(k.app, k.user, k.scope)
  }

  function Root(place: Place): Path {
    ["apps", place.app, "users", place.user] +
    (if place.scope.UserScope? then ["artifacts"] else ["sessions", place.scope.id, "artifacts"])
  }

  function SegmentsOf(k: Key): Path {
    var segments := Segments(k.filename);
    if segments.Some? then segments.value else []
  }

  function ArtifactDir(k: Key): Path {
    Root(PlaceOf(k)) + SegmentsOf(k)
  }

  function VersionsPath(k: Key): Path {
    ArtifactDir(k) + [VERSIONS]
  }

  lemma PlaceApart(p: Place, r: Path, p': Place, r': Path)
    ensures Root(p) + r <= Root(p') + r' <==> p == p' && r <= r'
  {
    var x, y := Root(p) + r, Root(p') + r';
    if x <= y {
      SamePlace(p, r, p', r');
      hide Root;
      assert x[|Root(p)|..] == r && y[|Root(p)|..] == r';
      assert forall i :: 0 <= i < |r| ==> r[i] == x[|Root(p)| + i] == y[|Root(p)| + i] == r'[i];
    }
    if p == p' && r <= r' {
      hide Root;
      assert y == Root(p) + r + r'[|r|..];
    }
  }

  lemma SamePlace(p: Place, r: Path, p': Place, r': Path)
    requires Root(p) + r <= Root(p') + r'
    ensures p == p'
  {
    var x, y := Root(p) + r, Root(p') + r';
    assert x[1] == p.app && y[1] == p'.app && x[3] == p.user && y[3] == p'.user;
    assert x[4] == (if p.scope.UserScope? then "artifacts" else "sessions");
    assert y[4] == (if p'.scope.UserScope? then "artifacts" else "sessions");
    assert p.scope.SessionScope? ==> x[5] == p.scope.id;
    assert p'.scope.SessionScope? ==> y[5] == p'.scope.id;
    assert y[4] == x[4];
    assert p.scope.SessionScope? ==> x[5] == y[5];
  }

  lemma VersionsSplit(k: Key)
    ensures VersionsPath(k) == Root(PlaceOf(k)) + (SegmentsOf(k) + [VERSIONS])
  {
    hide Root, SegmentsOf;
  }

  lemma PathsApart(p: Place, own: Path, place: Place, rel: Path)
    requires VERSIONS !in own && VERSIONS !in rel
    ensures var path, dir := Root(p) + (own + [VERSIONS]), Root(place) + (rel + [VERSIONS]);
            !(path <= Root(place) + rel) && (path <= dir ==> path == dir) && (dir <= path ==> path == dir)
  {
    hide *;
    PlaceApart(p, own + [VERSIONS], place, rel);
    PlaceApart(p, own + [VERSIONS], place, rel + [VERSIONS]);
    PlaceApart(place, rel + [VERSIONS], p, own + [VERSIONS]);
    TailOnly(own, rel, VERSIONS);
    TailOnly(rel, own, VERSIONS);
  }

  /** Below a scope, no path without a `versions` segment leads into an artifact's `versions`. */
  lemma VersionsApart(k: Key, place: Place, rel: Path)
    requires GoodKey(k) && VERSIONS !in rel
    ensures Beside(VersionsPath(k), Root(place) + rel)
  {
    hide GoodKey, Root, SegmentsOf, VersionsPath;
    VersionsSplit(k);
    GoodSegments(k);
    PathsApart(PlaceOf(k), SegmentsOf(k), place, rel);
    assert Root(place) + rel + [VERSIONS] == Root(place) + (rel + [VERSIONS]);
  }

  lemma TailOnly(a: Path, b: Path, x: string)
    requires x !in a && x !in b
    ensures !(a + [x] <= b)
    ensures a + [x] <= b + [x] ==> a == b
  {
    assert forall i :: 0 <= i < |b| ==> (b + [x])[i] == b[i] && b[i] in b;
    assert (a + [x])[|a|] == x;
    if a + [x] <= b + [x] {
      assert |a| == |b|;
      assert a == (a + [x])[..|a|] && b == (b + [x])[..|b|];
    }
  }

  lemma NameFromSegments(k: Key, k': Key)
    requires GoodKey(k) && GoodKey(k') && PlaceOf(k) == PlaceOf(k') && SegmentsOf(k) == SegmentsOf(k')
    ensures k == k'
  {
    hide ValidId, Segments, UserNamed;
  }

  /** A good key is determined by its artifact directory. */
  lemma VersionsInjective(k: Key, k': Key)
    requires GoodKey(k) && GoodKey(k')
    ensures VersionsPath(k) <= VersionsPath(k') <==> k == k'
  {
    var own, other := SegmentsOf(k), SegmentsOf(k');
    hide *;
    VersionsSplit(k);
    VersionsSplit(k');
    GoodSegments(k);
    GoodSegments(k');
    PlaceApart(PlaceOf(k), own + [VERSIONS], PlaceOf(k'), other + [VERSIONS]);
    TailOnly(own, other, VERSIONS);
    if PlaceOf(k) == PlaceOf(k') && own == other {
      NameFromSegments(k, k');
    }
  }

  // ----- Contents -----

  /** How a part is written: its payload, type and display name. */
  function Written(part: Part): Option<(Data, Option<string>, Option<string>)> {
    match part
    case Text(text) => Some((TextData(text), None, None))
    case FileData(_) => None
    case NoContent => None
    case Inline(Blob(mime, data, displayName)) =>
      if data.None? then None
      else
        match DecodeFrom(data.value, 0, 0)
        case None => None
        case Some(bytes) =>
          var stored := if mime.Some? && mime.value != "" then mime.value else "application/octet-stream";
          Some((ByteData(bytes), Some(stored), displayName))
  }

  /** How a payload is read back; reading a payload as the other kind of data is not modelled. */
  function ReadBack(payload: Option<Node>, metadata: Option<Metadata>): Option<Part> {
    if payload.None? || payload.value.Dir? then None
    else
      var data := payload.value.data;
      if metadata.Some? && metadata.value.mimeType.Some? then
        (match data
         case ByteData(bytes) =>
           Some(Inline(Blob(metadata.value.mimeType, Some(Encode(bytes)), metadata.value.displayName)))
         case _ => None)
      else
        match data
        case TextData(text) => Some(Text(text))
        case _ => None
  }

  /**
   * What is written of any part reads back as the part that is kept of it, and is what would be written
   * of that part; nothing is written exactly of the parts of which nothing is kept.
   */
  lemma WrittenReadsBack(part: Part, name: string, version: int)
    ensures Written(part).Some? <==> KeptAs(part).Some?
    ensures Written(part).Some? ==>
              var (data, mime, displayName) := Written(part).value;
              ReadBack(Some(File(data)), Some(Metadata(name, displayName, mime, version))) == KeptAs(part) &&
              Written(KeptAs(part).value) == Written(part)
  {
    if part.Inline? && KeptAs(part).Some? {
      RoundTrip(DecodeFrom(part.blob.data.value, 0, 0).value);
    }
  }

  function StoredName(dir: Path): string {
    if dir == [] then "" else dir[|dir| - 1]
  }

  function VersionNode(k: Key, version: nat, part: Part): Node {
    var written := Written(part);
    if written.None? then EMPTY_DIR
    else
      var (data, mime, displayName) := written.value;
      Dir(map[StoredName(ArtifactDir(k)) := File(data),
              METADATA := File(MetaData(Metadata(k.filename, displayName, mime, version)))])
  }

  function VersionEntries(k: Key, parts: seq<Part>): map<string, Node> {
    if parts == [] then map[]
    else
      var last := |parts| - 1;
      VersionEntries(k, parts[..last])[Digits(last) := VersionNode(k, last, parts[last])]
  }

  lemma {:induction false} EntriesExact(k: Key, parts: seq<Part>, name: string)
    ensures var entries := VersionEntries(k, parts);
            (name in entries ==>
              AllDigits(name) && name != "" && ValueOf(name) < |parts| && name == Digits(ValueOf(name)) &&
              entries[name] == VersionNode(k, ValueOf(name), parts[ValueOf(name)])) &&
            (forall v: nat :: v < |parts| ==> Digits(v) in entries)
  {
    if parts != [] {
      var last := |parts| - 1;
      EntriesExact(k, parts[..last], name);
      ValueOfDigits(last);
      assert forall v: nat :: v < last ==> parts[..last][v] == parts[v];
    }
  }

  // ----- The layout -----

  /**
   * The tree holds the versions of every artifact of `a` and no others, in their places, and no file
   * stands where a directory may be needed.
   */
  ghost predicate Layout(fs: Node, a: Store) {
    DiskStore(a) &&
    (forall k :: GoodKey(k) ==> VersionsAt(fs, a, k)) &&
    (forall place, rel :: VERSIONS !in rel ==> Open(fs, a, place, rel))
  }

  ghost predicate VersionsAt(fs: Node, a: Store, k: Key) {
    At(fs, VersionsPath(k)) == if k in a then Some(Dir(VersionEntries(k, a[k]))) else None
  }

  ghost predicate Open(fs: Node, a: Store, place: Place, rel: Path) {
    OpenAt(fs, a, Root(place) + rel)
  }

  /** The directory can be made if it is not there, and is an artifact's only if `a` has that artifact. */
  ghost predicate OpenAt(fs: Node, a: Store, dir: Path) {
    Clear(fs, dir) &&
    (At(fs, dir + [VERSIONS]).Some? ==> exists k :: k in a && VersionsPath(k) == dir + [VERSIONS])
  }

  /** The directory `versions` at `path` is not above or below `dir` or its `versions`, save that it may be that. */
  ghost predicate Beside(path: Path, dir: Path) {
    path != [] && !(path <= dir) &&
    (path <= dir + [VERSIONS] ==> path == dir + [VERSIONS]) && (dir + [VERSIONS] <= path ==> path == dir + [VERSIONS])
  }

  lemma EmptyLayout()
    ensures Layout(EMPTY_DIR, map[])
  {
    hide GoodKey;
    var a: Store := map[];
    forall k: Key | GoodKey(k) ensures VersionsAt(EMPTY_DIR, a, k) {
    }
    forall place, rel: Path | VERSIONS !in rel ensures Open(EMPTY_DIR, a, place, rel) {
    }
  }

  lemma GoodSegments(k: Key)
    requires GoodKey(k)
    ensures VERSIONS !in SegmentsOf(k) && SegmentsOf(k) != [] && !Reserved(StoredName(ArtifactDir(k)))
    ensures ArtifactDir(k) != [] && k.filename != ""
  {
    var segments := SegmentsOf(k);
    assert ArtifactDir(k)[|ArtifactDir(k)| - 1] == segments[|segments| - 1];
    SegmentsDescend(k.filename);
    assert segments[0] in segments;
    JoinNonEmpty(segments);
  }

  /** The directory of a good key can be named. */
  lemma GoodNameable(k: Key)
    requires GoodKey(k)
    ensures Nameable(ArtifactDir(k)) && Nameable(VersionsPath(k))
  {
    SegmentsHoldNul(k.filename);
    RootNameable(PlaceOf(k));
    assert Nameable(SegmentsOf(k));
    hide *;
    DirSplits(k);
    NameableConcat(Root(PlaceOf(k)), SegmentsOf(k));
    NameableConcat(ArtifactDir(k), [VERSIONS]);
    NameableOne(VERSIONS);
  }

  lemma DirSplits(k: Key)
    ensures ArtifactDir(k) == Root(PlaceOf(k)) + SegmentsOf(k) && VersionsPath(k) == ArtifactDir(k) + [VERSIONS]
    ensures '\0' !in VERSIONS
  {
    hide Root, SegmentsOf;
  }

  lemma RootNameable(place: Place)
    requires '\0' !in place.app && '\0' !in place.user && (place.scope.SessionScope? ==> '\0' !in place.scope.id)
    ensures Nameable(Root(place))
  {
  }

  lemma JoinNonEmpty(pieces: seq<string>)
    requires pieces != [] && pieces[0] != ""
    ensures Join(pieces, '/') != ""
  {
  }

  lemma VersionsClear(fs: Node, a: Store, k: Key)
    requires Layout(fs, a) && GoodKey(k)
    ensures Clear(fs, VersionsPath(k)) && Clear(fs, ArtifactDir(k))
  {
    GoodSegments(k);
    hide GoodKey, Root, SegmentsOf;
    assert Open(fs, a, PlaceOf(k), SegmentsOf(k));
    assert VersionsAt(fs, a, k);
    ClearLast(fs, ArtifactDir(k), VERSIONS);
  }

  // ----- What keeps the layout -----

  lemma PutKeepsVersions(fs: Node, a: Store, k: Key, parts: seq<Part>, k': Key)
    requires GoodKey(k) && GoodKey(k') && Clear(fs, VersionsPath(k)) && VersionsAt(fs, a, k')
    ensures VersionsAt(Put(fs, VersionsPath(k), Dir(VersionEntries(k, parts))), a[k := parts], k')
  {
    hide GoodKey, VersionsPath;
    VersionsInjective(k, k');
    VersionsInjective(k', k);
    if k == k' {
      AtPut(fs, VersionsPath(k), Dir(VersionEntries(k, parts)));
    } else {
      AtPutApart(fs, VersionsPath(k), Dir(VersionEntries(k, parts)), VersionsPath(k'));
    }
  }

  lemma PutKeepsOpen(fs: Node, a: Store, k: Key, x: Node, parts: seq<Part>, dir: Path)
    requires Clear(fs, VersionsPath(k)) && OpenAt(fs, a, dir) && Beside(VersionsPath(k), dir)
    ensures OpenAt(Put(fs, VersionsPath(k), x), a[k := parts], dir)
  {
    hide VersionsPath, Put, Clear;
    var path := VersionsPath(k);
    ClearPut(fs, path, x, dir);
    if path == dir + [VERSIONS] {
      assert k in a[k := parts];
    } else {
      AtPutApart(fs, path, x, dir + [VERSIONS]);
      if At(fs, dir + [VERSIONS]).Some? {
        var k' :| k' in a && VersionsPath(k') == dir + [VERSIONS];
        assert k' in a[k := parts];
      }
    }
  }

  lemma LayoutParts(fs: Node, a: Store, k: Key, place: Place, rel: Path)
    requires Layout(fs, a)
    ensures GoodKey(k) ==> VersionsAt(fs, a, k)
    ensures VERSIONS !in rel ==> OpenAt(fs, a, Root(place) + rel)
  {
    hide GoodKey, VersionsAt, OpenAt, Root;
    assert VERSIONS !in rel ==> Open(fs, a, place, rel);
  }

  lemma PutOpen(fs: Node, a: Store, k: Key, parts: seq<Part>, place: Place, rel: Path)
    requires Layout(fs, a) && GoodKey(k) && Clear(fs, VersionsPath(k)) && VERSIONS !in rel
    ensures Open(Put(fs, VersionsPath(k), Dir(VersionEntries(k, parts))), a[k := parts], place, rel)
  {
    hide Layout, GoodKey, VersionsPath, OpenAt, Root, Put, Clear, VersionEntries, Beside;
    LayoutParts(fs, a, k, place, rel);
    VersionsApart(k, place, rel);
    PutKeepsOpen(fs, a, k, Dir(VersionEntries(k, parts)), parts, Root(place) + rel);
  }

  lemma PutVersions(fs: Node, a: Store, k: Key, parts: seq<Part>, k': Key)
    requires Layout(fs, a) && GoodKey(k) && Clear(fs, VersionsPath(k)) && GoodKey(k')
    ensures VersionsAt(Put(fs, VersionsPath(k), Dir(VersionEntries(k, parts))), a[k := parts], k')
  {
    hide *;
    LayoutParts(fs, a, k', PlaceOf(k'), []);
    PutKeepsVersions(fs, a, k, parts, k');
  }

  lemma GoodPut(a: Store, k: Key, parts: seq<Part>)
    requires DiskStore(a) && GoodKey(k) && (forall i :: 0 <= i < |parts| ==> KeptWhole(parts[i]))
    ensures DiskStore(a[k := parts])
  {
    hide GoodKey, KeptWhole;
  }

  lemma LayoutIs(fs: Node, a: Store)
    requires DiskStore(a) && (forall k :: GoodKey(k) ==> VersionsAt(fs, a, k))
    requires forall place, rel :: VERSIONS !in rel ==> Open(fs, a, place, rel)
    ensures Layout(fs, a)
  {
    hide DiskStore, GoodKey, VersionsAt, Open;
  }

  lemma LayoutGood(fs: Node, a: Store)
    requires Layout(fs, a)
    ensures DiskStore(a)
  {
    hide DiskStore, GoodKey, VersionsAt, Open;
  }

  /** Writing the versions of one artifact turns the layout of a store into that of the store written. */
  lemma LayoutPut(fs: Node, a: Store, k: Key, parts: seq<Part>)
    requires Layout(fs, a) && GoodKey(k) && (forall i :: 0 <= i < |parts| ==> KeptWhole(parts[i]))
    ensures Clear(fs, VersionsPath(k))
    ensures Layout(Put(fs, VersionsPath(k), Dir(VersionEntries(k, parts))), a[k := parts])
  {
    hide *;
    VersionsClear(fs, a, k);
    LayoutGood(fs, a);
    GoodPut(a, k, parts);
    var fs', a' := Put(fs, VersionsPath(k), Dir(VersionEntries(k, parts))), a[k := parts];
    forall k' | GoodKey(k') ensures VersionsAt(fs', a', k') {
      PutVersions(fs, a, k, parts, k');
    }
    forall place, rel: Path | VERSIONS !in rel ensures Open(fs', a', place, rel) {
      PutOpen(fs, a, k, parts, place, rel);
    }
    LayoutIs(fs', a');
  }

  lemma DropKeepsVersions(fs: Node, a: Store, k: Key, k': Key)
    requires GoodKey(k) && GoodKey(k') && VersionsAt(fs, a, k') && VersionsPath(k) != []
    ensures VersionsAt(Drop(fs, VersionsPath(k)), a - {k}, k')
  {
    hide GoodKey, VersionsPath, VersionEntries, Drop;
    VersionsInjective(k, k');
    VersionsInjective(k', k);
    if k == k' {
      AtDropped(fs, VersionsPath(k));
    } else {
      AtDrop(fs, VersionsPath(k), VersionsPath(k'));
    }
  }

  lemma DropKeepsOpen(fs: Node, a: Store, k: Key, dir: Path)
    requires OpenAt(fs, a, dir) && Beside(VersionsPath(k), dir)
    ensures OpenAt(Drop(fs, VersionsPath(k)), a - {k}, dir)
  {
    hide VersionsPath, Drop, Clear;
    var path := VersionsPath(k);
    ClearDrop(fs, path, dir);
    if path == dir + [VERSIONS] {
      AtDropped(fs, path);
    } else {
      AtDrop(fs, path, dir + [VERSIONS]);
      if At(fs, dir + [VERSIONS]).Some? {
        var k' :| k' in a && VersionsPath(k') == dir + [VERSIONS];
        assert k' in a - {k};
      }
    }
  }

  lemma DropOpen(fs: Node, a: Store, k: Key, place: Place, rel: Path)
    requires Layout(fs, a) && GoodKey(k) && VersionsPath(k) != [] && VERSIONS !in rel
    ensures Open(Drop(fs, VersionsPath(k)), a - {k}, place, rel)
  {
    hide Layout, GoodKey, VersionsPath, OpenAt, Root, Drop, Beside;
    LayoutParts(fs, a, k, place, rel);
    VersionsApart(k, place, rel);
    DropKeepsOpen(fs, a, k, Root(place) + rel);
  }

  lemma DropVersions(fs: Node, a: Store, k: Key, k': Key)
    requires Layout(fs, a) && GoodKey(k) && VersionsPath(k) != [] && GoodKey(k')
    ensures VersionsAt(Drop(fs, VersionsPath(k)), a - {k}, k')
  {
    hide *;
    LayoutParts(fs, a, k', PlaceOf(k'), []);
    DropKeepsVersions(fs, a, k, k');
  }

  lemma GoodDrop(a: Store, k: Key)
    requires DiskStore(a)
    ensures DiskStore(a - {k})
  {
    hide GoodKey, KeptWhole;
  }

  lemma VersionsPathNotEmpty(k: Key)
    ensures VersionsPath(k) != []
  {
  }

  /** Removing an artifact's versions gives the layout of the store without it. */
  lemma LayoutDrop(fs: Node, a: Store, k: Key)
    requires Layout(fs, a) && GoodKey(k)
    ensures VersionsPath(k) != [] && Layout(Drop(fs, VersionsPath(k)), a - {k})
  {
    hide *;
    VersionsPathNotEmpty(k);
    LayoutGood(fs, a);
    GoodDrop(a, k);
    var fs', a' := Drop(fs, VersionsPath(k)), a - {k};
    forall k' | GoodKey(k') ensures VersionsAt(fs', a', k') {
      DropVersions(fs, a, k, k');
    }
    forall place, rel: Path | VERSIONS !in rel ensures Open(fs', a', place, rel) {
      DropOpen(fs, a, k, place, rel);
    }
    LayoutIs(fs', a');
  }

  lemma DropEmptyKeeps(fs: Node, path: Path, q: Path)
    requires path != [] && At(fs, path) == Some(EMPTY_DIR) && q != path
    ensures At(Drop(fs, path), q) == At(fs, q) || (IsDir(fs, q) && IsDir(Drop(fs, path), q))
  {
    if q <= path {
      DropAbove(fs, path, q);
    } else {
      AtDrop(fs, path, q);
      if path <= q {
        assert q == path + q[|path|..];
        AtConcat(fs, path, q[|path|..]);
      }
    }
  }

  lemma {:induction false} DropAbove(n: Node, path: Path, q: Path)
    requires path != [] && q <= path && q != path && At(n, path).Some?
    ensures IsDir(n, q) && IsDir(Drop(n, path), q)
  {
    if q != [] {
      assert path[0] == q[0];
      DropAbove(n.children[path[0]], path[1..], q[1..]);
    }
  }

  lemma PruneOpen(fs: Node, a: Store, path: Path, dir: Path)
    requires path != [] && At(fs, path) == Some(EMPTY_DIR) && OpenAt(fs, a, dir)
    requires forall k :: k in a ==> VersionsPath(k) != path
    ensures OpenAt(Drop(fs, path), a, dir)
  {
    hide VersionsPath, Drop, Clear, At;
    ClearDrop(fs, path, dir);
    var q := dir + [VERSIONS];
    if q == path {
      AtDropped(fs, path);
    } else {
      DropEmptyKeeps(fs, path, q);
    }
  }

  /** Removing an empty directory changes nothing that the layout speaks of. */
  lemma LayoutPrune(fs: Node, a: Store, place: Place, rel: Path)
    requires Layout(fs, a) && VERSIONS !in rel && At(fs, Root(place) + rel) == Some(EMPTY_DIR)
    ensures Layout(Drop(fs, Root(place) + rel), a)
  {
    var path := Root(place) + rel;
    var fs' := Drop(fs, path);
    hide GoodKey, VersionsPath, KeptWhole, VersionsAt, Open, Drop, VersionEntries, At, Root;
    forall k | GoodKey(k) ensures !(VersionsPath(k) <= path) && VersionsAt(fs', a, k) {
      VersionsApart(k, place, rel);
      LayoutParts(fs, a, k, PlaceOf(k), []);
      PruneVersions(fs, a, k, path);
    }
    forall p, r: Path | VERSIONS !in r ensures Open(fs', a, p, r) {
      LayoutParts(fs, a, Key("", "", UserScope, ""), p, r);
      PruneOpen(fs, a, path, Root(p) + r);
      OpenIs(fs', a, p, r);
    }
  }

  lemma OpenIs(fs: Node, a: Store, place: Place, rel: Path)
    requires OpenAt(fs, a, Root(place) + rel)
    ensures Open(fs, a, place, rel)
  {
  }

  lemma PruneVersions(fs: Node, a: Store, k: Key, path: Path)
    requires path != [] && At(fs, path) == Some(EMPTY_DIR) && VersionsAt(fs, a, k)
    requires !(VersionsPath(k) <= path)
    ensures VersionsAt(Drop(fs, path), a, k)
  {
    hide VersionsPath, Drop;
    var q := VersionsPath(k);
    AtDrop(fs, path, q);
    if path <= q {
      assert q == path + q[|path|..];
      AtConcat(fs, path, q[|path|..]);
    }
  }
}
