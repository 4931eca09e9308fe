/** What a save does to the tree, from the directories it makes to the version it publishes. */
module SavingArtifacts {
  import opened Wrappers
  import opened Base64
  import opened ArtifactKeys
  import opened ArtifactSpec
  import opened FileTree
  import opened ArtifactLayout
  import opened VersionListing

  /** Fills the staging directory and renames it to the version's; the temporary metadata file is elided. */
  function Publish(fs: Node, staging: Path, final: Path, stored: string, data: Data, metadata: Metadata): Option<Node>
    requires staging != [] && final != []
  {
    match WriteFile(fs, staging + [stored], data)
    case None => None
    case Some(withPayload) =>
      match WriteFile(withPayload, staging + [METADATA], MetaData(metadata))
      case None => None
      case Some(complete) => Rename(complete, staging, final)
  }

  /** What is left of a save once its version is staged; `None` is an error. */
  function PublishPart(staged: Node, dir: Path, filename: string, part: Part, v: int): Option<Node> {
    match Written(part)
    case None => None
    case Some((data, mime, displayName)) =>
      Publish(staged, dir + [VERSIONS] + [PendingName(v)], dir + [VERSIONS] + [VersionText(v)], StoredName(dir), data,
              Metadata(filename, displayName, mime, v))
  }

  /** `staged` is `fs` with the artifact's directories and the staging directory of its first free version. */
  ghost predicate Staged(fs: Node, dir: Path, v: int, staged: Node) {
    var base := WithDirs(fs, dir);
    base.Some? && IsDir(base.value, dir + [VERSIONS]) &&
    FirstFree(At(base.value, dir + [VERSIONS]).value.children, v) &&
    Clear(base.value, dir + [VERSIONS] + [PendingName(v)]) &&
    staged == Put(base.value, dir + [VERSIONS] + [PendingName(v)], EMPTY_DIR)
  }

  // ----- A save, seen inside the versions directory -----

  lemma PutChild(children: map<string, Node>, name: string, x: Node)
    ensures Clear(Dir(children), [name]) <== name !in children || children[name].Dir?
    ensures Clear(Dir(children), [name]) ==> Put(Dir(children), [name], x) == Dir(children[name := x])
    ensures Drop(Dir(children), [name]) == Dir(children - {name})
    ensures At(Dir(children), [name]) == Get(children, name)
  {
    assert [name][1..] == [];
    if name !in children {
      assert children - {name} == children;
    }
  }

  lemma PutGrandchild(children: map<string, Node>, name: string, inner: map<string, Node>, file: string, x: Node)
    requires name in children && children[name] == Dir(inner) && file !in inner
    ensures Clear(Dir(children), [name, file])
    ensures Put(Dir(children), [name, file], x) == Dir(children[name := Dir(inner[file := x])])
    ensures At(Dir(children), [name, file]).None?
    ensures Drop(Dir(children), [name, file]) == Dir(children)
  {
    PutChild(inner, file, x);
    assert [name, file][1..] == [file];
    assert inner - {file} == inner;
    assert children[name := Dir(inner)] == children;
  }

  /** Writing a new file into the staging directory. */
  lemma WriteStaged(base: Node, dir: Path, children: map<string, Node>, pending: string,
                    inner: map<string, Node>, file: string, data: Data)
    requires Clear(base, dir) && pending in children && children[pending] == Dir(inner) && file !in inner
    ensures WriteFile(Put(base, dir, Dir(children)), dir + [pending] + [file], data) ==
            Some(Put(base, dir, Dir(children[pending := Dir(inner[file := File(data)])])))
  {
    var fs, d := Put(base, dir, Dir(children)), Dir(children);
    var path := dir + [pending] + [file];
    assert path == dir + [pending, file] && Parent(path) == dir + [pending];
    PutGrandchild(children, pending, inner, file, File(data));
    PutChild(children, pending, EMPTY_DIR);
    InAt(base, dir, d, [pending]);
    InAt(base, dir, d, [pending, file]);
    InDrop(base, dir, d, [pending, file]);
    InPut(base, dir, d, [pending, file], File(data));
  }

  /** Renaming the staging directory to a free name. */
  lemma RenameStaged(base: Node, dir: Path, children: map<string, Node>, pending: string, name: string)
    requires Clear(base, dir) && pending in children && children[pending].Dir?
    requires name !in children
    ensures Rename(Put(base, dir, Dir(children)), dir + [pending], dir + [name]) ==
            Some(Put(base, dir, Dir((children - {pending})[name := children[pending]])))
  {
    var fs, d := Put(base, dir, Dir(children)), Dir(children);
    var rest := children - {pending};
    PutChild(children, pending, EMPTY_DIR);
    PutChild(children, name, EMPTY_DIR);
    PutChild(rest, name, children[pending]);
    InAt(base, dir, d, [pending]);
    InAt(base, dir, d, [name]);
    InAt(base, dir, d, []);
    assert dir + [] == dir && Parent(dir + [name]) == dir;
    InDrop(base, dir, d, [pending]);
    InDrop(base, dir, Dir(rest), [name]);
    InPut(base, dir, Dir(rest), [name], children[pending]);
    assert (dir + [pending])[|dir|] == pending && (dir + [name])[|dir|] == name;
  }

  /** A save adds the version directory and leaves nothing else behind. */
  lemma PublishAdds(base: Node, dir: Path, children: map<string, Node>, pending: string, name: string,
                    stored: string, data: Data, metadata: Metadata)
    requires Clear(base, dir) && pending !in children && name !in children && pending != name && stored != METADATA
    ensures Publish(Put(base, dir, Dir(children[pending := EMPTY_DIR])), dir + [pending], dir + [name],
                    stored, data, metadata) ==
            Some(Put(base, dir, Dir(children[name := Dir(map[stored := File(data), METADATA := File(MetaData(metadata))])])))
  {
    var one := map[stored := File(data)];
    var both := one[METADATA := File(MetaData(metadata))];
    var c0 := children[pending := EMPTY_DIR];
    var c1 := c0[pending := Dir(one)];
    var c2 := c1[pending := Dir(both)];
    hide WriteFile, Rename, Put, Clear;
    assert map[][stored := File(data)] == one;
    WriteStaged(base, dir, c0, pending, map[], stored, data);
    WriteStaged(base, dir, c1, pending, one, METADATA, MetaData(metadata));
    RenameStaged(base, dir, c2, pending, name);
    assert (c2 - {pending})[name := Dir(both)] == children[name := Dir(both)];
    assert both == map[stored := File(data), METADATA := File(MetaData(metadata))];
  }

  /** The tree once the artifact's directories have been made. */
  function WithDirs(fs: Node, dir: Path): Option<Node> {
    match CreateDirAll(fs, dir)
    case None => None
    case Some(made) => CreateDirAll(made, dir + [VERSIONS])
  }

  /** Making the directories leaves the versions that are there, and what is put there as if they had been. */
  lemma DirsMakeWay(fs: Node, dir: Path, x: Node)
    requires Clear(fs, dir + [VERSIONS]) && Clear(fs, dir) && Nameable(dir) && Nameable(dir + [VERSIONS])
    ensures CreateDirAll(fs, dir).Some? && WithDirs(fs, dir).Some?
    ensures var base := WithDirs(fs, dir).value;
            Clear(base, dir + [VERSIONS]) &&
            At(base, dir + [VERSIONS]) == Some(
              if At(fs, dir + [VERSIONS]).Some? then At(fs, dir + [VERSIONS]).value else EMPTY_DIR) &&
            Put(base, dir + [VERSIONS], x) == Put(fs, dir + [VERSIONS], x)
  {
    var path := dir + [VERSIONS];
    AtConcat(fs, dir, [VERSIONS]);
    var made := CreateDirAll(fs, dir).value;
    if At(fs, dir).None? {
      PutNew(fs, dir, [VERSIONS], x);
      PutNew(fs, dir, [VERSIONS], EMPTY_DIR);
      assert Clear(EMPTY_DIR, [VERSIONS]);
      InPut(fs, dir, EMPTY_DIR, [VERSIONS], x);
      InAt(fs, dir, EMPTY_DIR, [VERSIONS]);
    }
    assert Clear(made, path) && Put(made, path, x) == Put(fs, path, x);
    assert At(made, path) == At(fs, path);
    if At(fs, path).None? {
      AtPut(made, path, EMPTY_DIR);
      PutPut(made, path, EMPTY_DIR, x);
    }
  }

  /** Making the directories of a good key leaves its versions, or an empty directory for them. */
  lemma ReadyToSave(fs: Node, a: Store, k: Key, x: Node)
    requires Layout(fs, a) && GoodKey(k)
    ensures CreateDirAll(fs, ArtifactDir(k)).Some? && WithDirs(fs, ArtifactDir(k)).Some? && Clear(fs, VersionsPath(k))
    ensures var base := WithDirs(fs, ArtifactDir(k)).value;
            At(base, VersionsPath(k)) == Some(Dir(VersionEntries(k, VersionsOf(a, k)))) &&
            Clear(base, VersionsPath(k)) && Put(base, VersionsPath(k), x) == Put(fs, VersionsPath(k), x)
  {
    VersionsClear(fs, a, k);
    GoodNameable(k);
    LayoutParts(fs, a, k, PlaceOf(k), []);
    hide Layout, GoodKey, ArtifactDir, At, Put, Clear, CreateDirAll, WithDirs, Nameable;
    DirsMakeWay(fs, ArtifactDir(k), x);
  }

  lemma StagedMeans(fs: Node, k: Key, v: int, staged: Node)
    requires Staged(fs, ArtifactDir(k), v, staged)
    ensures var base := WithDirs(fs, ArtifactDir(k));
            base.Some? && At(base.value, VersionsPath(k)).Some? && At(base.value, VersionsPath(k)).value.Dir? &&
            FirstFree(At(base.value, VersionsPath(k)).value.children, v) &&
            Clear(base.value, VersionsPath(k) + [PendingName(v)]) &&
            staged == Put(base.value, VersionsPath(k) + [PendingName(v)], EMPTY_DIR)
  {
    hide ArtifactDir, At, Put, Clear, WithDirs, FirstFree, PendingName;
  }

  lemma AllKept(a: Store, k: Key)
    requires DiskStore(a)
    ensures forall i :: 0 <= i < |VersionsOf(a, k)| ==> KeptWhole(VersionsOf(a, k)[i])
  {
    hide KeptWhole, GoodKey;
  }

  /** The layout once the directories have been made and `parts` are there. */
  lemma GrownLayout(fs: Node, a: Store, k: Key, parts: seq<Part>)
    requires Layout(fs, a) && GoodKey(k) && forall i :: 0 <= i < |parts| ==> KeptWhole(parts[i])
    ensures WithDirs(fs, ArtifactDir(k)).Some?
    ensures var base := WithDirs(fs, ArtifactDir(k)).value;
            At(base, VersionsPath(k)) == Some(Dir(VersionEntries(k, VersionsOf(a, k)))) &&
            Clear(base, VersionsPath(k)) &&
            Layout(Put(base, VersionsPath(k), Dir(VersionEntries(k, parts))), a[k := parts])
  {
    hide *;
    ReadyToSave(fs, a, k, Dir(VersionEntries(k, parts)));
    LayoutPut(fs, a, k, parts);
  }

  /** What a save makes of the tree, from the version it stages to the version it publishes. */
  lemma SaveRefines(fs: Node, a: Store, k: Key, part: Part, v: int, staged: Node)
    requires Layout(fs, a) && GoodKey(k) && Staged(fs, ArtifactDir(k), v, staged)
    ensures v == |VersionsOf(a, k)|
    ensures var saved := PublishPart(staged, ArtifactDir(k), k.filename, part, v);
            (saved.Some? <==> KeptAs(part).Some?) &&
            (saved.Some? ==> Layout(saved.value, a[k := VersionsOf(a, k) + [KeptAs(part).value]]))
  {
    StagedMeans(fs, k, v, staged);
    assert DiskStore(a);
    NothingWritten(staged, ArtifactDir(k), k.filename, part, v);
    WrittenReadsBack(part, "", 0);
    hide *;
    AllKept(a, k);
    var base, parts := WithDirs(fs, ArtifactDir(k)).value, VersionsOf(a, k);
    ReadyToSave(fs, a, k, EMPTY_DIR);
    FirstFreeIsCount(k, parts, v);
    if KeptAs(part).Some? {
      var kept := KeptAs(part).value;
      KeptAsExact(part);
      SaveSteps(base, k, parts, kept, v);
      SamePublish(staged, ArtifactDir(k), k.filename, part, kept, v);
      OneMoreKept(parts, kept);
      GrownLayout(fs, a, k, parts + [kept]);
    }
  }

  lemma OneMoreKept(parts: seq<Part>, part: Part)
    requires KeptWhole(part) && forall i :: 0 <= i < |parts| ==> KeptWhole(parts[i])
    ensures forall i :: 0 <= i < |parts + [part]| ==> KeptWhole((parts + [part])[i])
  {
    hide KeptWhole;
  }

  /** Parts of which the same is written are saved alike. */
  lemma SamePublish(staged: Node, dir: Path, filename: string, part: Part, other: Part, v: int)
    requires Written(part) == Written(other)
    ensures PublishPart(staged, dir, filename, part, v) == PublishPart(staged, dir, filename, other, v)
  {
    hide Written;
  }

  lemma NothingWritten(staged: Node, dir: Path, filename: string, part: Part, v: int)
    ensures Written(part).None? ==> PublishPart(staged, dir, filename, part, v).None?
  {
  }

  lemma SaveSteps(base: Node, k: Key, parts: seq<Part>, part: Part, v: int)
    requires GoodKey(k) && Written(part).Some? && forall i :: 0 <= i < |parts| ==> KeptWhole(parts[i])
    requires Clear(base, VersionsPath(k)) && At(base, VersionsPath(k)) == Some(Dir(VersionEntries(k, parts)))
    requires FirstFree(VersionEntries(k, parts), v)
    ensures v == |parts| && Clear(base, VersionsPath(k) + [PendingName(v)])
    ensures PublishPart(Put(base, VersionsPath(k) + [PendingName(v)], EMPTY_DIR), ArtifactDir(k), k.filename, part, v) ==
            Some(Put(base, VersionsPath(k), Dir(VersionEntries(k, parts + [part]))))
  {
    var dir, children := VersionsPath(k), VersionEntries(k, parts);
    FirstFreeIsCount(k, parts, v);
    GoodSegments(k);
    NotMetadata(StoredName(ArtifactDir(k)));
    NamesDiffer(v, v);
    var (data, mime, displayName) := Written(part).value;
    var metadata := Metadata(k.filename, displayName, mime, v);
    var pending, name := PendingName(v), VersionText(v);
    assert pending !in children && name !in children;
    assert dir == ArtifactDir(k) + [VERSIONS];
    EntriesGrow(k, parts, part);
    hide VersionsPath, ArtifactDir, VersionEntries, Put, Clear, PendingName, VersionText, Publish, GoodKey, KeptWhole;
    PutChild(children, pending, EMPTY_DIR);
    PutSame(base, dir);
    InPut(base, dir, Dir(children), [pending], EMPTY_DIR);
    PublishAdds(base, dir, children, pending, name, StoredName(ArtifactDir(k)), data, metadata);
  }

  lemma NotMetadata(name: string)
    requires !Reserved(name)
    ensures name != METADATA
  {
    assert forall i :: 0 <= i < |METADATA| ==> LowerAscii(METADATA[i]) == METADATA[i];
  }

  lemma EntriesGrow(k: Key, parts: seq<Part>, part: Part)
    requires Written(part).Some?
    ensures var (data, mime, displayName) := Written(part).value;
            VersionEntries(k, parts + [part]) ==
            VersionEntries(k, parts)[VersionText(|parts|) :=
              Dir(map[StoredName(ArtifactDir(k)) := File(data),
                      METADATA := File(MetaData(Metadata(k.filename, displayName, mime, |parts|)))])]
  {
    assert (parts + [part])[..|parts|] == parts;
  }

  /**
   * A save that fails once its version is staged removes the staging directory and nothing else: the
   * artifact's directories stay, and a walk finds an artifact there even if no version was ever saved.
   */
  lemma FailedSaveLeavesDirs(fs: Node, dir: Path, v: int, staged: Node)
    requires Staged(fs, dir, v, staged)
    ensures RemoveDirAll(staged, dir + [VERSIONS] + [PendingName(v)]) == WithDirs(fs, dir)
    ensures IsDir(WithDirs(fs, dir).value, dir + [VERSIONS])
  {
    hide FirstFree, AboveVersions, PendingName, VersionText, WithDirs;
    var base := WithDirs(fs, dir).value;
    FirstIsFree(At(base, dir + [VERSIONS]).value.children, v);
    NamesDiffer(v, v);
    MkdirBeside(base, dir + [VERSIONS], PendingName(v), VersionText(v));
  }

  lemma FirstIsFree(children: map<string, Node>, v: int)
    requires FirstFree(children, v)
    ensures PendingName(v) !in children
  {
  }

  lemma DirsThere(fs: Node, dir: Path)
    requires IsDir(fs, dir + [VERSIONS]) && Nameable(dir) && Nameable(dir + [VERSIONS])
    ensures WithDirs(fs, dir) == Some(fs)
  {
    AtConcat(fs, dir, [VERSIONS]);
    ExistingIsClear(fs, dir + [VERSIONS]);
    ExistingIsClear(fs, dir);
  }

  /**
   * What a failed save leaves is the layout of a store that has the artifact, without versions if it
   * had none; so the tree changes exactly when the artifact was not there.
   */
  lemma FailedSaveRefines(fs: Node, a: Store, k: Key)
    requires Layout(fs, a) && GoodKey(k)
    ensures WithDirs(fs, ArtifactDir(k)).Some?
    ensures Layout(WithDirs(fs, ArtifactDir(k)).value, a[k := VersionsOf(a, k)])
    ensures WithDirs(fs, ArtifactDir(k)) == Some(fs) <==> k in a
  {
    assert DiskStore(a);
    hide *;
    AllKept(a, k);
    GrownLayout(fs, a, k, VersionsOf(a, k));
    PutSame(WithDirs(fs, ArtifactDir(k)).value, VersionsPath(k));
    LayoutParts(fs, a, k, PlaceOf(k), []);
    VersionsThere(fs, a, k);
  }

  lemma VersionsThere(fs: Node, a: Store, k: Key)
    requires VersionsAt(fs, a, k) && GoodKey(k)
    ensures At(fs, VersionsPath(k)).Some? <==> k in a
    ensures k in a ==> WithDirs(fs, ArtifactDir(k)) == Some(fs)
  {
    GoodNameable(k);
    hide GoodKey;
    if k in a {
      DirsThere(fs, ArtifactDir(k));
    }
  }

  /**
   * The parts that cannot be saved: those that are neither text nor inline data, and inline data that
   * is missing or, up to its padding, not in the alphabet.
   */
  lemma WrittenExactly(part: Part)
    ensures Written(part).None? <==>
            !part.Text? &&
            (!part.Inline? || part.blob.data.None? ||
             exists i :: 0 <= i < |Body(part.blob.data.value)| && DecodeValue(Body(part.blob.data.value)[i]).None?)
  {
    if part.Inline? && part.blob.data.Some? {
      DecodesWhat(part.blob.data.value, 0, 0);
    }
  }

  /** One of them. */
  lemma BadPayload()
    ensures Written(Inline(Blob(Some("text/plain"), Some("!"), None))).None?
  {
    assert DecodeValue('!').None? && Body("!")[0] == '!';
    WrittenExactly(Inline(Blob(Some("text/plain"), Some("!"), None)));
  }
}
