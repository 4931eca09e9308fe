/** `FileArtifactService`: artifacts kept in a directory tree. */
module FileArtifacts {
  import opened Wrappers
  import opened Strings
  import opened Orderings
  import opened Decimals
  import opened ArtifactKeys
  import opened ArtifactSpec
  import opened FileTree
  import opened ArtifactLayout
  import opened VersionListing
  import opened SavingArtifacts
  import opened ArtifactWalk

  // ----- Names -----

  /** The components of an identifier joined to a path; one with slashes inside gives several. */
  function IdPath(id: string): Path {
    NonTrivial(Split(id, '/'))
  }

  function BaseRoot(app: string, user: string): Option<Path> {
    if !ValidId(app) || !ValidId(user) then None
    else Some(["apps"] + IdPath(app) + ["users"] + IdPath(user))
  }

  function ScopeRoot(app: string, user: string, session: string, filename: string): Option<Path> {
    match BaseRoot(app, user)
    case None => None
    case Some(base) =>
      if UserNamed(filename) then Some(base + ["artifacts"])
      else if !ValidId(session) then None
      else Some(base + ["sessions"] + IdPath(session) + ["artifacts"])
  }

  /** `artifact_dir`; `None` is an identifier or a filename that is not accepted. */
  function DirFor(app: string, user: string, session: string, filename: string): Option<Path> {
    match (ScopeRoot(app, user, session, filename), Segments(filename))
    case (Some(root), Some(segments)) => Some(root + segments)
    case _ => None
  }

  lemma {:induction false} SplitPlain(s: string)
    requires '/' !in s
    ensures Split(s, '/') == [s]
  {
    if s != "" {
      SplitPlain(s[1..]);
      assert s == [s[0]] + s[1..];
    }
  }

  lemma PlainIdPath(id: string)
    requires PlainId(id)
    ensures IdPath(id) == [id]
  {
    SplitPlain(id);
    assert NonTrivial([id]) == [id] + NonTrivial([id][1..]);
  }

  lemma GoodDir(app: string, user: string, session: string, filename: string)
    requires GoodKey(KeyOf(app, user, session, filename))
    ensures var k := KeyOf(app, user, session, filename);
            ScopeRoot(app, user, session, filename) == Some(Root(PlaceOf(k))) &&
            DirFor(app, user, session, filename) == Some(ArtifactDir(k))
  {
    hide Segments, ValidId, NormalName, UserNamed, IdPath;
    PlainIdPath(app);
    PlainIdPath(user);
    GoodHasSegments(filename);
    var base := ["apps", app, "users", user];
    assert ["apps"] + [app] + ["users"] + [user] == base;
    if UserNamed(filename) {
      assert Root(PlaceOf(KeyOf(app, user, session, filename))) == base + ["artifacts"];
    } else {
      PlainIdPath(session);
      assert base + ["sessions"] + [session] + ["artifacts"] == base + ["sessions", session, "artifacts"];
    }
  }

  lemma GoodHasSegments(filename: string)
    requires NormalName(filename)
    ensures Segments(filename).Some?
  {
  }

  lemma IdNameable(id: string)
    requires ValidId(id)
    ensures Nameable(IdPath(id))
  {
    SplitHolds(id, '/', '\0');
    NonTrivialHolds(Split(id, '/'), '\0');
  }

  /** The directory of an accepted request can be named exactly if its filename has no NUL, since ids have none. */
  lemma DirNameable(app: string, user: string, session: string, filename: string)
    requires DirFor(app, user, session, filename).Some?
    ensures Nameable(DirFor(app, user, session, filename).value) <==> '\0' !in filename
  {
    assert ScopeRoot(app, user, session, filename).Some? && Segments(filename).Some?;
    hide *;
    ScopeNameable(app, user, session, filename);
    NameableConcat(ScopeRoot(app, user, session, filename).value, Segments(filename).value);
    SegmentsNameable(filename);
    DirParts(app, user, session, filename);
  }

  lemma DirParts(app: string, user: string, session: string, filename: string)
    requires ScopeRoot(app, user, session, filename).Some? && Segments(filename).Some?
    ensures DirFor(app, user, session, filename) ==
            Some(ScopeRoot(app, user, session, filename).value + Segments(filename).value)
  {
    hide ScopeRoot, Segments;
  }

  lemma SegmentsNameable(filename: string)
    requires Segments(filename).Some?
    ensures Nameable(Segments(filename).value) <==> '\0' !in filename
  {
    SegmentsHoldNul(filename);
    hide Segments, Holds;
  }

  lemma ScopeNameable(app: string, user: string, session: string, filename: string)
    requires ScopeRoot(app, user, session, filename).Some?
    ensures Nameable(ScopeRoot(app, user, session, filename).value)
  {
    BaseNameable(app, user);
    NameableOne("artifacts");
    NameableOne("sessions");
    hide BaseRoot, IdPath, ValidId, Nameable, UserNamed;
    var base := BaseRoot(app, user).value;
    NameableConcat(base, ["artifacts"]);
    if !UserNamed(filename) {
      IdNameable(session);
      NameableConcat(base, ["sessions"]);
      NameableConcat(base + ["sessions"], IdPath(session));
      NameableConcat(base + ["sessions"] + IdPath(session), ["artifacts"]);
    }
  }

  lemma BaseNameable(app: string, user: string)
    requires BaseRoot(app, user).Some?
    ensures Nameable(BaseRoot(app, user).value)
  {
    NameableOne("apps");
    NameableOne("users");
    hide IdPath, ValidId, Nameable;
    IdNameable(app);
    IdNameable(user);
    NameableConcat(["apps"], IdPath(app));
    NameableConcat(["apps"] + IdPath(app), ["users"]);
    NameableConcat(["apps"] + IdPath(app) + ["users"], IdPath(user));
  }

  /** So a name that is accepted can be created only if it has no NUL, and then if no file is in the way. */
  lemma CreatedWithoutNul(fs: Node, app: string, user: string, session: string, filename: string)
    requires DirFor(app, user, session, filename).Some?
    ensures var dir := DirFor(app, user, session, filename).value;
            CreateDirAll(fs, dir).Some? <==> '\0' !in filename && Clear(fs, dir)
  {
    DirNameable(app, user, session, filename);
    hide DirFor;
  }

  /** One that is accepted and cannot be created. */
  lemma NulName()
    ensures Segments("\0") == Some(["\0"])
  {
    assert Trim("\0") == "\0" && Slashed("\0") == "\0";
    SplitPlain("\0");
    assert NonTrivial(["\0"]) == ["\0"] + NonTrivial([]);
  }

  // ----- Reading -----

  /** What `ListVersionsOnDisk` gives for an artifact's directory. */
  ghost predicate Listing(fs: Node, dir: Path, versions: seq<int>) {
    if IsDir(fs, dir + [VERSIONS]) then VersionsListed(At(fs, dir + [VERSIONS]).value.children, versions)
    else versions == []
  }

  lemma ListingRefines(fs: Node, a: Store, k: Key, versions: seq<int>)
    requires Layout(fs, a) && GoodKey(k) && Listing(fs, ArtifactDir(k), versions)
    ensures versions == UpTo(|VersionsOf(a, k)|)
  {
    LayoutParts(fs, a, k, PlaceOf(k), []);
    hide GoodKey, ArtifactDir, KeptWhole;
    if k in a {
      ListedUpTo(k, a[k], versions);
    }
  }

  /** `read_metadata`: anything but a metadata document is no metadata. */
  function MetadataAt(fs: Node, path: Path): Option<Metadata> {
    match At(fs, path)
    case Some(File(MetaData(metadata))) => Some(metadata)
    case _ => None
  }

  function VersionDir(dir: Path, v: int): Path {
    dir + [VERSIONS] + [VersionText(v)]
  }

  lemma StoredIsGood(fs: Node, a: Store, k: Key)
    requires Layout(fs, a) && k in a
    ensures GoodKey(k) && VersionsOf(a, k) == a[k]
    ensures forall i :: 0 <= i < |a[k]| ==> KeptWhole(a[k][i]) && KeptAs(a[k][i]) == Some(a[k][i])
  {
    hide GoodKey, KeptAs, VersionsAt, Open;
  }

  lemma StoredNode(fs: Node, a: Store, k: Key, v: nat)
    requires Layout(fs, a) && k in a && v < |a[k]|
    ensures At(fs, VersionDir(ArtifactDir(k), v)) == Some(VersionNode(k, v, a[k][v]))
  {
    LayoutParts(fs, a, k, PlaceOf(k), []);
    EntriesExact(k, a[k], Digits(v));
    DigitsParse(v);
    ValueOfDigits(v);
    hide ArtifactDir, KeptWhole, GoodKey, Layout, VersionEntries, VersionNode, DiskStore;
    ChildThere(fs, ArtifactDir(k) + [VERSIONS], Digits(v));
  }

  /** The two files of a stored version. */
  lemma StoredFiles(fs: Node, k: Key, v: nat, part: Part)
    requires GoodKey(k) && KeptWhole(part) && At(fs, VersionDir(ArtifactDir(k), v)) == Some(VersionNode(k, v, part))
    ensures Written(part).Some?
    ensures var (data, mime, displayName) := Written(part).value;
            At(fs, VersionDir(ArtifactDir(k), v) + [StoredName(ArtifactDir(k))]) == Some(File(data)) &&
            MetadataAt(fs, VersionDir(ArtifactDir(k), v) + [METADATA]) ==
            Some(Metadata(k.filename, displayName, mime, v))
  {
    WrittenReadsBack(part, "", 0);
    GoodSegments(k);
    NotMetadata(StoredName(ArtifactDir(k)));
    hide ArtifactDir, KeptWhole, GoodKey, Written;
    ChildThere(fs, VersionDir(ArtifactDir(k), v), StoredName(ArtifactDir(k)));
    ChildThere(fs, VersionDir(ArtifactDir(k), v), METADATA);
  }

  /** A stored version reads back as the part that was saved. */
  lemma ReadRefines(fs: Node, a: Store, k: Key, v: nat)
    requires Layout(fs, a) && k in a && v < |a[k]|
    ensures var dir := VersionDir(ArtifactDir(k), v);
            ReadBack(At(fs, dir + [StoredName(ArtifactDir(k))]), MetadataAt(fs, dir + [METADATA])) == Some(a[k][v])
  {
    hide *;
    StoredIsGood(fs, a, k);
    StoredNode(fs, a, k, v);
    StoredFiles(fs, k, v, a[k][v]);
    WrittenReadsBack(a[k][v], k.filename, v);
  }

  /** The version to load: the one asked for, if it is listed, or the last one. */
  function ChosenVersion(versions: seq<int>, version: Option<int>): Option<int> {
    match version
    case Some(v) => if v in versions then Some(v) else None
    case None => if versions == [] then None else Some(versions[|versions| - 1])
  }

  function LoadFrom(fs: Node, dir: Path, v: int): Option<Part> {
    ReadBack(At(fs, VersionDir(dir, v) + [StoredName(dir)]), MetadataAt(fs, VersionDir(dir, v) + [METADATA]))
  }

  lemma ChosenRefines(versions: seq<int>, n: nat, version: Option<int>)
    requires versions == UpTo(n)
    ensures var chosen, i := ChosenVersion(versions, version), VersionIndex(n, version);
            (chosen.None? <==> i.None?) && (chosen.Some? ==> chosen.value == i.value)
  {
    UpToLength(n);
    if n > 0 {
      UpToAt(n, n - 1);
    }
  }

  lemma LoadRefines(fs: Node, a: Store, k: Key, versions: seq<int>, version: Option<int>)
    requires Layout(fs, a) && GoodKey(k) && Listing(fs, ArtifactDir(k), versions)
    ensures var chosen, i := ChosenVersion(versions, version), VersionIndex(|VersionsOf(a, k)|, version);
            (chosen.None? <==> i.None?) &&
            (chosen.Some? ==> LoadFrom(fs, ArtifactDir(k), chosen.value) == Some(VersionsOf(a, k)[i.value]))
  {
    hide Layout, GoodKey, ArtifactDir, Listing, ReadBack, At, MetadataAt, UpTo, ChosenVersion, VersionDir;
    ListingRefines(fs, a, k, versions);
    ChosenRefines(versions, |VersionsOf(a, k)|, version);
    var i := VersionIndex(|VersionsOf(a, k)|, version);
    if i.Some? {
      ReadRefines(fs, a, k, i.value);
    }
  }

  lemma ArtifactDirThere(fs: Node, a: Store, k: Key)
    requires Layout(fs, a) && k in a
    ensures IsDir(fs, ArtifactDir(k)) && IsDir(fs, VersionsPath(k))
  {
    LayoutParts(fs, a, k, PlaceOf(k), []);
    AtConcat(fs, ArtifactDir(k), [VERSIONS]);
  }

  // ----- Listing keys -----

  lemma ArtifactBelow(k: Key)
    requires GoodKey(k)
    ensures Below(Root(PlaceOf(k)), ArtifactDir(k))
  {
    GoodSegments(k);
    hide GoodKey, Root, SegmentsOf;
    assert ArtifactDir(k)[|Root(PlaceOf(k))|..] == SegmentsOf(k);
  }

  lemma WalkFinds(fs: Node, a: Store, place: Place, d: Path) returns (k: Key)
    requires Layout(fs, a) && Reachable(fs, Root(place), d) && IsDir(fs, d + [VERSIONS])
    ensures k in a && PlaceOf(k) == place && ArtifactDir(k) == d
  {
    var rel := d[|Root(place)|..];
    assert d == Root(place) + rel && VERSIONS !in rel && At(fs, d + [VERSIONS]).Some?;
    hide Layout, Root, SegmentsOf, Reachable, At, Clear, IsDir, GoodKey, VersionsAt;
    LayoutParts(fs, a, Key("", "", UserScope, ""), place, rel);
    k :| k in a && VersionsPath(k) == d + [VERSIONS];
    assert ArtifactDir(k) == VersionsPath(k)[..|d|] == d;
    PlaceApart(PlaceOf(k), SegmentsOf(k), place, rel);
  }

  lemma WalkReaches(fs: Node, a: Store, k: Key)
    requires Layout(fs, a) && k in a
    ensures Reachable(fs, Root(PlaceOf(k)), ArtifactDir(k)) && IsDir(fs, ArtifactDir(k) + [VERSIONS])
  {
    hide Layout, Root, SegmentsOf, IsDir, Below;
    ArtifactDirThere(fs, a, k);
    StoredIsGood(fs, a, k);
    ArtifactBelow(k);
  }

  /** The artifact directories that a walk from a place's root finds are those of the artifacts stored there. */
  lemma WalkRefines(fs: Node, a: Store, place: Place, d: Path)
    requires Layout(fs, a)
    ensures Reachable(fs, Root(place), d) && IsDir(fs, d + [VERSIONS]) <==>
            exists k :: k in a && PlaceOf(k) == place && ArtifactDir(k) == d
  {
    hide *;
    if Reachable(fs, Root(place), d) && IsDir(fs, d + [VERSIONS]) {
      var k := WalkFinds(fs, a, place, d);
    }
    if k :| k in a && PlaceOf(k) == place && ArtifactDir(k) == d {
      WalkReaches(fs, a, k);
    }
  }

  /** `latest_metadata`. */
  method LatestMetadata(fs: Node, dir: Path, ghost a: Store, ghost k: Key) returns (metadata: Option<Metadata>)
    ensures Layout(fs, a) && k in a && dir == ArtifactDir(k) ==>
              if a[k] == [] then metadata.None? else metadata.Some? && metadata.value.fileName == k.filename
  {
    hide Layout, ArtifactDir, At, VersionsListed, GoodKey, MetadataAt;
    var versions := ListVersionsOnDisk(fs, dir);
    if Layout(fs, a) && k in a && dir == ArtifactDir(k) {
      LatestRefines(fs, a, k, versions);
    }
    if versions == [] {
      return None;
    }
    metadata := MetadataAt(fs, VersionDir(dir, versions[|versions| - 1]) + [METADATA]);
  }

  lemma LatestRefines(fs: Node, a: Store, k: Key, versions: seq<int>)
    requires Layout(fs, a) && k in a && Listing(fs, ArtifactDir(k), versions)
    ensures versions == [] <==> a[k] == []
    ensures versions != [] ==>
              var latest := MetadataAt(fs, VersionDir(ArtifactDir(k), versions[|versions| - 1]) + [METADATA]);
              latest.Some? && latest.value.fileName == k.filename
  {
    hide *;
    StoredIsGood(fs, a, k);
    var n := |a[k]|;
    ListingRefines(fs, a, k, versions);
    UpToLength(n);
    if n > 0 {
      UpToAt(n, n - 1);
      StoredNode(fs, a, k, n - 1);
      StoredFiles(fs, k, n - 1, a[k][n - 1]);
    }
  }

  /** Backslashes of a directory's path become slashes. */
  function RelativeName(root: Path, dir: Path): string
    requires root <= dir
  {
    Slashed(Join(dir[|root|..], '/'))
  }

  /** What the names that are taken from directories below a root are given in front. */
  function PrefixOf(place: Place): string {
    if place.scope.UserScope? then USER_PREFIX else ""
  }

  lemma {:induction false} JoinWithout(pieces: seq<string>, sep: char, c: char)
    requires c != sep && forall piece :: piece in pieces ==> c !in piece
    ensures c !in Join(pieces, sep)
  {
    if |pieces| > 1 {
      JoinWithout(pieces[1..], sep, c);
    } else if pieces != [] {
      assert pieces[0] in pieces;
    }
  }

  lemma {:induction false} SlashedSlashes(s: string)
    ensures '\\' !in Slashed(s) && ('\\' !in s ==> Slashed(s) == s)
  {
    if s != "" {
      SlashedSlashes(s[1..]);
      assert s == [s[0]] + s[1..];
    }
  }

  lemma SegmentsSlashFree(filename: string)
    requires Segments(filename).Some?
    ensures forall piece :: piece in Segments(filename).value ==> '\\' !in piece
  {
    var text := Slashed(Trim(WithoutNamespace(filename)));
    SlashedSlashes(Trim(WithoutNamespace(filename)));
    SplitHolds(text, '/', '\\');
    NonTrivialPieces(Split(text, '/'));
    assert forall piece :: piece in Split(text, '/') ==> '\\' !in piece;
  }

  lemma SpellsName(filename: string)
    requires NormalName(filename)
    ensures filename == (if UserNamed(filename) then USER_PREFIX else "") + Slashed(Join(Segments(filename).value, '/'))
  {
    var segments := Segments(filename).value;
    SegmentsSlashFree(filename);
    hide Segments;
    JoinWithout(segments, '/', '\\');
    SlashedSlashes(Join(segments, '/'));
  }

  /** The name that a good artifact is given by its directory is its filename. */
  lemma NamedByDir(k: Key)
    requires GoodKey(k)
    ensures Root(PlaceOf(k)) <= ArtifactDir(k)
    ensures PrefixOf(PlaceOf(k)) + RelativeName(Root(PlaceOf(k)), ArtifactDir(k)) == k.filename
  {
    SpellsName(k.filename);
    hide Segments, Join, Slashed, Root, Reserved, ValidId;
    assert ArtifactDir(k)[|Root(PlaceOf(k))|..] == SegmentsOf(k);
  }

  ghost predicate NamesOfPlace(a: Store, place: Place, names: set<string>) {
    forall n :: n in names <==> exists k :: k in a && PlaceOf(k) == place && k.filename == n
  }

  /** `k` is stored in one of the directories. */
  ghost predicate StoredUnder(a: Store, place: Place, dirs: seq<Path>, k: Key) {
    k in a && PlaceOf(k) == place && ArtifactDir(k) in dirs
  }

  ghost predicate NamesOf(a: Store, place: Place, dirs: seq<Path>, names: set<string>) {
    forall n :: n in names <==> exists k :: StoredUnder(a, place, dirs, k) && k.filename == n
  }

  lemma SameDirSameKey(k: Key, k': Key)
    requires GoodKey(k) && GoodKey(k') && ArtifactDir(k) == ArtifactDir(k')
    ensures k == k'
  {
    VersionsInjective(k, k');
  }

  lemma NamesStep(a: Store, place: Place, dirs: seq<Path>, dir: Path, names: set<string>, k: Key)
    requires (forall l :: l in a ==> GoodKey(l)) && NamesOf(a, place, dirs, names) && KeptIn(a, place, dir, k)
    ensures NamesOf(a, place, dirs + [dir], names + {k.filename})
  {
    hide GoodKey, ArtifactDir, PlaceOf;
    forall n ensures n in names + {k.filename} <==>
                     exists l :: StoredUnder(a, place, dirs + [dir], l) && l.filename == n {
      if n in names {
        var l :| StoredUnder(a, place, dirs, l) && l.filename == n;
        assert StoredUnder(a, place, dirs + [dir], l);
      }
      assert StoredUnder(a, place, dirs + [dir], k);
      if l :| StoredUnder(a, place, dirs + [dir], l) && l.filename == n {
        if ArtifactDir(l) == dir {
          SameDirSameKey(k, l);
        } else {
          assert StoredUnder(a, place, dirs, l);
        }
      }
    }
  }

  /** The walk found a directory for every artifact of the place. */
  ghost predicate DirsOfPlace(a: Store, place: Place, dirs: seq<Path>) {
    forall d :: d in dirs <==> exists k :: k in a && PlaceOf(k) == place && ArtifactDir(k) == d
  }

  lemma NoNames(a: Store, place: Place, dirs: seq<Path>)
    ensures NamesOf(a, place, dirs[..0], {})
  {
  }

  lemma AllNames(a: Store, place: Place, dirs: seq<Path>, names: set<string>)
    requires DirsOfPlace(a, place, dirs) && NamesOf(a, place, dirs, names)
    ensures NamesOfPlace(a, place, names)
  {
    hide ArtifactDir, PlaceOf;
    forall n ensures n in names <==> exists k :: k in a && PlaceOf(k) == place && k.filename == n {
      if k :| k in a && PlaceOf(k) == place && k.filename == n {
        assert ArtifactDir(k) in dirs;
        assert StoredUnder(a, place, dirs, k);
      }
    }
  }

  lemma WalkedDirs(fs: Node, a: Store, place: Place, dirs: seq<Path>)
    requires Layout(fs, a)
    requires forall d :: d in dirs <==> Reachable(fs, Root(place), d) && IsDir(fs, d + [VERSIONS])
    ensures DirsOfPlace(a, place, dirs) && forall l :: l in a ==> GoodKey(l)
  {
    hide Reachable, IsDir, Root, ArtifactDir, PlaceOf, GoodKey, VersionsAt, Open, KeptWhole;
    forall d ensures d in dirs <==> exists k :: k in a && PlaceOf(k) == place && ArtifactDir(k) == d {
      WalkRefines(fs, a, place, d);
    }
  }

  /** `k` is stored in `dir`. */
  ghost predicate KeptIn(a: Store, place: Place, dir: Path, k: Key) {
    k in a && GoodKey(k) && PlaceOf(k) == place && ArtifactDir(k) == dir
  }

  lemma KeyOfDir(a: Store, place: Place, dirs: seq<Path>, dir: Path) returns (k: Key)
    requires DirsOfPlace(a, place, dirs) && dir in dirs && forall l :: l in a ==> GoodKey(l)
    ensures KeptIn(a, place, dir, k)
  {
    hide GoodKey, ArtifactDir, PlaceOf;
    k :| k in a && PlaceOf(k) == place && ArtifactDir(k) == dir;
  }

  /** The tree is laid out, and `root` and `prefix` are those of `place`. */
  ghost predicate AtPlace(fs: Node, a: Store, place: Place, root: Path, prefix: string) {
    Layout(fs, a) && root == Root(place) && prefix == PrefixOf(place)
  }

  /** The name of the artifact in a directory: the one its latest metadata gives, or else that of the directory. */
  method NameOf(fs: Node, root: Path, dir: Path, prefix: string, ghost a: Store, ghost place: Place, ghost k: Key)
    returns (name: string)
    requires root <= dir
    ensures AtPlace(fs, a, place, root, prefix) && KeptIn(a, place, dir, k) ==> name == k.filename
  {
    if GoodKey(k) {
      GoodSegments(k);
      NamedByDir(k);
    }
    hide Layout, GoodKey, Root, ArtifactDir, PlaceOf, PrefixOf, RelativeName;
    var metadata := LatestMetadata(fs, dir, a, k);
    name := if metadata.Some? && metadata.value.fileName != "" then metadata.value.fileName
            else prefix + RelativeName(root, dir);
  }

  lemma WalkedPlace(fs: Node, a: Store, place: Place, root: Path, prefix: string, dirs: seq<Path>)
    requires AtPlace(fs, a, place, root, prefix)
    requires forall d :: d in dirs <==> Reachable(fs, root, d) && IsDir(fs, d + [VERSIONS])
    ensures DirsOfPlace(a, place, dirs) && forall l :: l in a ==> GoodKey(l)
  {
    hide Layout, Root, Reachable, IsDir, GoodKey, DirsOfPlace;
    WalkedDirs(fs, a, place, dirs);
  }

  lemma AllBelow(fs: Node, root: Path, dirs: seq<Path>)
    requires forall d :: d in dirs <==> Reachable(fs, root, d) && IsDir(fs, d + [VERSIONS])
    ensures forall i :: 0 <= i < |dirs| ==> root <= dirs[i]
  {
    forall i | 0 <= i < |dirs| ensures root <= dirs[i] {
      assert dirs[i] in dirs;
    }
  }

  /** The names of the artifacts below a root. */
  method NamesUnder(fs: Node, root: Path, prefix: string, ghost a: Store, ghost place: Place)
    returns (names: set<string>)
    ensures AtPlace(fs, a, place, root, prefix) ==> NamesOfPlace(a, place, names)
  {
    hide *;
    var dirs := IterArtifactDirs(fs, root);
    AllBelow(fs, root, dirs);
    ghost var good := AtPlace(fs, a, place, root, prefix);
    if good {
      WalkedPlace(fs, a, place, root, prefix, dirs);
    }
    NoNames(a, place, dirs);
    names := {};
    for i := 0 to |dirs|
      invariant good ==> NamesOf(a, place, dirs[..i], names)
    {
      ghost var k := Key("", "", UserScope, "");
      if good {
        k := KeyOfDir(a, place, dirs, dirs[i]);
      }
      var name := NameOf(fs, root, dirs[i], prefix, a, place, k);
      if good {
        NamesStep(a, place, dirs[..i], dirs[i], names, k);
      }
      names := names + {name};
      assert dirs[..i + 1] == dirs[..i] + [dirs[i]];
    }
    assert dirs[..|dirs|] == dirs;
    if good {
      AllNames(a, place, dirs, names);
    }
  }

  method InOrder(names: set<string>) returns (r: seq<string>)
    ensures Lists(r, names)
  {
    var s: seq<string> := [];
    var todo := names;
    while todo != {}
      invariant todo <= names && NoRepeats(s) && forall n :: n in s <==> n in names && n !in todo
      decreases |todo|
    {
      var name :| name in todo;
      todo := todo - {name};
      s := s + [name];
    }
    r := Sort(s, StrLeq);
    StrOrder();
    SortKeeps(s, StrLeq);
    SortedListing(r, names);
  }

  lemma RootsOfPlaces(app: string, user: string, session: string)
    requires PlainId(app) && PlainId(user) && PlainId(session)
    ensures BaseRoot(app, user).Some?
    ensures var base := BaseRoot(app, user).value;
            base + ["sessions"] + IdPath(session) + ["artifacts"] == Root(Place(app, user, SessionScope(session))) &&
            base + ["artifacts"] == Root(Place(app, user, UserScope))
  {
    hide ValidId, IdPath;
    PlainIdPath(app);
    PlainIdPath(user);
    PlainIdPath(session);
  }

  lemma NamesJoin(a: Store, app: string, user: string, session: string, own: set<string>, shared: set<string>)
    requires NamesOfPlace(a, Place(app, user, SessionScope(session)), own)
    requires NamesOfPlace(a, Place(app, user, UserScope), shared)
    ensures own + shared == NamesIn(a, app, user, session)
  {
    forall n ensures n in own + shared <==> n in NamesIn(a, app, user, session) {
      if n in NamesIn(a, app, user, session) {
        var k :| k in a && k.app == app && k.user == user &&
                 (k.scope.UserScope? || k.scope == SessionScope(session)) && k.filename == n;
        assert PlaceOf(k) == Place(app, user, SessionScope(session)) || PlaceOf(k) == Place(app, user, UserScope);
      }
    }
  }

  lemma VersionsFound(fs: Node, a: Store, k: Key)
    requires VersionsAt(fs, a, k)
    ensures At(fs, VersionsPath(k)).Some? <==> k in a
    ensures k in a ==> RemoveDirAll(fs, VersionsPath(k)) == Some(Drop(fs, VersionsPath(k)))
  {
  }

  /** Deleting finds the versions exactly if there are any, and leaves the layout of the rest. */
  lemma DeleteRefines(fs: Node, a: Store, k: Key)
    requires Layout(fs, a) && GoodKey(k)
    ensures At(fs, VersionsPath(k)).Some? <==> k in a
    ensures k in a ==>
              RemoveDirAll(fs, VersionsPath(k)) == Some(Drop(fs, VersionsPath(k))) &&
              Layout(Drop(fs, VersionsPath(k)), a - {k})
    ensures k !in a ==> a - {k} == a
    ensures Below(Root(PlaceOf(k)), ArtifactDir(k))
  {
    hide *;
    LayoutParts(fs, a, k, PlaceOf(k), []);
    VersionsFound(fs, a, k);
    LayoutDrop(fs, a, k);
    ArtifactBelow(k);
  }

  /** Deleting an artifact keeps all others, also those whose directories lie inside its own. */
  lemma OthersSurvive(fs: Node, fs': Node, a: Store, k: Key, k': Key)
    requires Layout(fs, a) && Layout(fs', a - {k}) && GoodKey(k') && k' != k
    ensures At(fs', VersionsPath(k')) == At(fs, VersionsPath(k'))
  {
    hide Layout, GoodKey, VersionsPath;
    LayoutParts(fs, a, k', PlaceOf(k'), []);
    LayoutParts(fs', a - {k}, k', PlaceOf(k'), []);
  }

  /** Removing an empty directory on the way up keeps the layout. */
  lemma PruneOnce(fs: Node, a: Store, place: Place, leaf: Path, current: Path)
    requires Layout(fs, a) && Below(Root(place), leaf) && Root(place) <= current <= leaf && current != []
    requires At(fs, current) == Some(EMPTY_DIR)
    ensures Layout(Drop(fs, current), a)
  {
    hide Layout, Root, At, Drop;
    var rel := current[|Root(place)|..];
    assert current == Root(place) + rel;
    assert rel == leaf[|Root(place)|..][..|rel|];
    LayoutPrune(fs, a, place, rel);
  }

  /** The session is shown the artifact. */
  predicate ShownIn(k: Key, app: string, user: string, session: string) {
    k.app == app && k.user == user && (k.scope.UserScope? || k.scope == SessionScope(session))
  }

  lemma OneKeyShown(k: Key, l: Key, app: string, user: string, session: string)
    requires PlainKey(k) && PlainKey(l) && k.filename == l.filename
    requires ShownIn(k, app, user, session) && ShownIn(l, app, user, session)
    ensures k == l
  {
    assert k.scope.UserScope? <==> l.scope.UserScope?;
    assert k.scope.UserScope? ==> k.scope == UserScope == l.scope;
    assert k.scope.SessionScope? ==> k.scope == SessionScope(session) == l.scope;
  }

  /**
   * After a failed save every session that would be shown the artifact lists it, though it has no
   * version; so their listings change exactly when it was not there, and all others stay.
   */
  lemma FailedSaveListed(a: Store, k: Key, app: string, user: string, session: string)
    requires DiskStore(a) && GoodKey(k)
    ensures NamesIn(a[k := VersionsOf(a, k)], app, user, session) ==
            NamesIn(a, app, user, session) + if ShownIn(k, app, user, session) then {k.filename} else {}
    ensures ShownIn(k, app, user, session) ==>
              (NamesIn(a[k := VersionsOf(a, k)], app, user, session) == NamesIn(a, app, user, session) <==> k in a)
  {
    hide ValidId, NormalName, KeptWhole;
    var a' := a[k := VersionsOf(a, k)];
    forall n ensures n in NamesIn(a', app, user, session) <==>
                     n in NamesIn(a, app, user, session) || (ShownIn(k, app, user, session) && n == k.filename) {
      if n in NamesIn(a, app, user, session) {
        var l :| l in a && ShownIn(l, app, user, session) && l.filename == n;
        assert l in a';
      }
      if ShownIn(k, app, user, session) && n == k.filename {
        assert k in a';
      }
    }
    if ShownIn(k, app, user, session) && k.filename in NamesIn(a, app, user, session) {
      var l :| l in a && ShownIn(l, app, user, session) && l.filename == k.filename;
      assert GoodKey(l) && PlainKey(l) && PlainKey(k);
      OneKeyShown(k, l, app, user, session);
    }
  }

  class FileArtifactService {
    /** The tree below the root directory. */
    var fs: Node

    constructor ()
      ensures fs == EMPTY_DIR
    {
      fs := EMPTY_DIR;
    }

    /** `reserve_version_dir`: stages the first free version. */
    method ReserveVersionDir(dir: Path) returns (r: Result<int, string>)
      modifies this
      ensures r.Ok? <==> CreateDirAll(old(fs), dir + [VERSIONS]).Some?
      ensures r.Err? ==> fs == old(fs)
      ensures r.Ok? ==>
                var base, v := CreateDirAll(old(fs), dir + [VERSIONS]).value, r.value;
                IsDir(base, dir + [VERSIONS]) && FirstFree(At(base, dir + [VERSIONS]).value.children, v) &&
                Clear(base, dir + [VERSIONS] + [PendingName(v)]) &&
                fs == Put(base, dir + [VERSIONS] + [PendingName(v)], EMPTY_DIR)
    {
      var versionsDir := dir + [VERSIONS];
      var made := CreateDirAll(fs, versionsDir);
      if made.None? {
        return Err("cannot make the versions directory");
      }
      CreateDirAllMakes(fs, versionsDir);
      fs := made.value;
      ghost var children := At(fs, versionsDir).value.children;
      var existing := ListVersionsOnDisk(fs, dir);
      var version := NextVersion(existing);
      hide FirstFree, Free, VersionsListed, NextVersion, CreateDirAll, CreateDir, RemoveDir, PendingName, VersionText;
      hide Taken, At, Put, Clear;
      while true
        invariant fs == made.value && version >= NextVersion(existing)
        invariant forall w :: NextVersion(existing) <= w < version ==> !Free(children, w)
        decreases |Taken(children, version)|
      {
        var staging := versionsDir + [PendingName(version)];
        TryVersion(fs, versionsDir, version);
        var outcome := CreateDir(fs, staging);
        if outcome.AlreadyExists? {
          version := version + 1;
          continue;
        }
        if outcome.MkdirFailed? {
          return Err("cannot make the staging directory");
        }
        fs := outcome.tree;
        if At(fs, versionsDir + [VersionText(version)]).None? {
          FirstFreeFound(children, existing, version);
          return Ok(version);
        }
        fs := RemoveDir(fs, staging).value;
        version := version + 1;
      }
    }

    /** `save_artifact`; a failed save removes its staging directory. */
    method SaveArtifact(app: string, user: string, session: string, filename: string, part: Part, ghost a: Store)
      returns (r: Result<int, string>)
      modifies this
      ensures var dir := DirFor(app, user, session, filename);
              dir.None? || Reserved(StoredName(dir.value)) || '\0' in filename ==> r.Err? && fs == old(fs)
      ensures var k := KeyOf(app, user, session, filename);
              Layout(old(fs), a) && GoodKey(k) ==>
                (r.Ok? <==> KeptAs(part).Some?) &&
                (r.Ok? ==>
                   r.value == |VersionsOf(a, k)| && Layout(fs, a[k := VersionsOf(a, k) + [KeptAs(part).value]]) &&
                   ComesBackAs(part, KeptAs(part).value)) &&
                (r.Err? ==> Some(fs) == WithDirs(old(fs), ArtifactDir(k)) && Layout(fs, a[k := VersionsOf(a, k)]))
    {
      ghost var k := KeyOf(app, user, session, filename);
      ghost var good := Layout(fs, a) && GoodKey(k);
      if good {
        GoodDir(app, user, session, filename);
        GoodSegments(k);
        KeptAsExact(part);
        ReadyToSave(fs, a, k, EMPTY_DIR);
        FailedSaveRefines(fs, a, k);
      }
      var dir := DirFor(app, user, session, filename);
      if dir.Some? {
        CreatedWithoutNul(fs, app, user, session, filename);
      }
      hide DirFor, Reserved, StoredName, Layout, GoodKey, ArtifactDir, KeptAs, KeptWhole, ComesBackAs;
      hide CreateDirAll, PublishPart, FirstFree, At, Put, Clear;
      if dir.None? {
        return Err("invalid id or filename");
      }
      if Reserved(StoredName(dir.value)) {
        return Err("reserved filename");
      }
      var made := CreateDirAll(fs, dir.value);
      if made.None? {
        return Err("cannot make the artifact directory");
      }
      fs := made.value;
      var version := ReserveVersionDir(dir.value);
      if version.Err? {
        return version;
      }
      ghost var staged := fs;
      assert Staged(old(fs), dir.value, version.value, staged);
      var published := PublishPart(fs, dir.value, filename, part, version.value);
      if good {
        SaveRefines(old(fs), a, k, part, version.value, staged);
      }
      if published.None? {
        FailedSaveLeavesDirs(old(fs), dir.value, version.value, staged);
        var cleared := RemoveDirAll(fs, dir.value + [VERSIONS] + [PendingName(version.value)]);
        if cleared.Some? {
          fs := cleared.value;
        }
        return Err("the artifact cannot be written");
      }
      fs := published.value;
      r := version;
    }

    /** `load_artifact`; versions that are not there, and payloads that cannot be read, give `None`. */
    method LoadArtifact(app: string, user: string, session: string, filename: string, version: Option<int>,
                        ghost a: Store)
      returns (r: Result<Option<Part>, string>)
      ensures r.Err? <==> DirFor(app, user, session, filename).None?
      ensures var k := KeyOf(app, user, session, filename);
              Layout(fs, a) && GoodKey(k) ==>
                var parts := VersionsOf(a, k);
                var i := VersionIndex(|parts|, version);
                r == Ok(if i.Some? then Some(parts[i.value]) else None)
    {
      ghost var k := KeyOf(app, user, session, filename);
      ghost var good := Layout(fs, a) && GoodKey(k);
      if good {
        GoodDir(app, user, session, filename);
        if k in a { ArtifactDirThere(fs, a, k); }
      }
      hide Layout, GoodKey, DirFor, At, VersionsListed, LoadFrom, ArtifactDir, ChosenVersion;
      var dir := DirFor(app, user, session, filename);
      if dir.None? {
        return Err("invalid id or filename");
      }
      if At(fs, dir.value).None? {
        return Ok(None);
      }
      var versions := ListVersionsOnDisk(fs, dir.value);
      if good {
        LoadRefines(fs, a, k, versions, version);
      }
      var chosen := ChosenVersion(versions, version);
      r := Ok(if chosen.Some? then LoadFrom(fs, dir.value, chosen.value) else None);
    }

    method ListVersions(app: string, user: string, session: string, filename: string, ghost a: Store)
      returns (r: Result<seq<int>, string>)
      ensures r.Err? <==> DirFor(app, user, session, filename).None?
      ensures r.Ok? ==> Listing(fs, DirFor(app, user, session, filename).value, r.value)
      ensures var k := KeyOf(app, user, session, filename);
              Layout(fs, a) && GoodKey(k) ==> r == Ok(UpTo(|VersionsOf(a, k)|))
    {
      ghost var k := KeyOf(app, user, session, filename);
      if Layout(fs, a) && GoodKey(k) {
        GoodDir(app, user, session, filename);
      }
      hide Layout, GoodKey, DirFor, At, VersionsListed, ArtifactDir;
      var dir := DirFor(app, user, session, filename);
      if dir.None? {
        return Err("invalid id or filename");
      }
      var versions := ListVersionsOnDisk(fs, dir.value);
      if Layout(fs, a) && GoodKey(k) {
        ListingRefines(fs, a, k, versions);
      }
      r := Ok(versions);
    }

    /** `list_artifact_keys`; an identifier that is not accepted has no artifacts. */
    method ListArtifactKeys(app: string, user: string, session: string, ghost a: Store) returns (names: seq<string>)
      ensures Layout(fs, a) && PlainId(app) && PlainId(user) && PlainId(session) ==>
                Lists(names, NamesIn(a, app, user, session))
    {
      var base := BaseRoot(app, user);
      if base.None? {
        return [];
      }
      var sessionRoot, userRoot := base.value + ["sessions"] + IdPath(session) + ["artifacts"], base.value + ["artifacts"];
      ghost var own, shared := Place(app, user, SessionScope(session)), Place(app, user, UserScope);
      var sessionNames := NamesUnder(fs, sessionRoot, "", a, own);
      var userNames := NamesUnder(fs, userRoot, USER_PREFIX, a, shared);
      if Layout(fs, a) && PlainId(app) && PlainId(user) && PlainId(session) {
        RootsOfPlaces(app, user, session);
        assert PrefixOf(own) == "" && PrefixOf(shared) == USER_PREFIX;
        NamesJoin(a, app, user, session, sessionNames, userNames);
      }
      names := InOrder(sessionNames + userNames);
    }

    /** Removes empty directories upwards from `leaf`, below `stopAt`. */
    method PruneEmptyDirs(leaf: Path, stopAt: Path, ghost a: Store, ghost place: Place) returns (ghost kept: Path)
      modifies this
      ensures !(stopAt <= leaf) ==> fs == old(fs)
      ensures stopAt <= leaf ==>
                stopAt <= kept <= leaf && (kept == stopAt || At(fs, kept) != Some(EMPTY_DIR)) &&
                (kept != leaf ==> At(fs, leaf[..|kept| + 1]).None?)
      ensures Layout(old(fs), a) && stopAt == Root(place) && Below(stopAt, leaf) ==> Layout(fs, a)
    {
      kept := leaf;
      var current := leaf;
      ghost var inPlace := Layout(fs, a) && stopAt == Root(place) && Below(stopAt, leaf);
      hide Layout, Below, Root, At, Drop;
      while current != stopAt && stopAt <= current
        invariant kept == current && current <= leaf
        invariant stopAt <= leaf ==> stopAt <= current
        invariant !(stopAt <= leaf) ==> fs == old(fs)
        invariant current != leaf ==> At(fs, leaf[..|current| + 1]).None?
        invariant inPlace ==> Layout(fs, a)
        decreases |current|
      {
        var removed := RemoveDir(fs, current);
        if removed.None? {
          return;
        }
        if inPlace {
          PruneOnce(fs, a, place, leaf, current);
        }
        AtDropped(fs, current);
        assert leaf[..|current|] == current;
        fs := removed.value;
        current := Parent(current);
        kept := current;
      }
    }

    /** `delete_artifact`: removes all versions and the directories that are empty without them. */
    method DeleteArtifact(app: string, user: string, session: string, filename: string, ghost a: Store)
      returns (r: Result<(), string>)
      modifies this
      ensures DirFor(app, user, session, filename).None? ==> r.Err? && fs == old(fs)
      ensures var k := KeyOf(app, user, session, filename);
              Layout(old(fs), a) && GoodKey(k) ==> r == Ok(()) && Layout(fs, a - {k})
    {
      ghost var k := KeyOf(app, user, session, filename);
      ghost var good := Layout(fs, a) && GoodKey(k);
      if good {
        GoodDir(app, user, session, filename);
        DeleteRefines(fs, a, k);
      }
      var dir := DirFor(app, user, session, filename);
      if dir.None? {
        return Err("invalid id or filename");
      }
      var versions := dir.value + [VERSIONS];
      if At(fs, versions).None? {
        return Ok(());
      }
      var removed := RemoveDirAll(fs, versions);
      if removed.None? {
        return Err("cannot remove the versions");
      }
      fs := removed.value;
      var scopeRoot := ScopeRoot(app, user, session, filename);
      if scopeRoot.Some? {
        ghost var kept := PruneEmptyDirs(dir.value, scopeRoot.value, a - {k}, PlaceOf(k));
      }
      r := Ok(());
    }
  }
}
