/** A directory tree, and what the file operations of the artifact store do to it. */
module FileTree {
  import opened Wrappers
  import opened Strings
  import opened Base64

  /** What an artifact version records beside its payload. */
  datatype Metadata = Metadata(fileName: string, displayName: Option<string>, mimeType: Option<string>, version: int)

  /** The contents of a file, by the kind of document it was written as. */
  datatype Data = TextData(text: string) | ByteData(bytes: seq<Byte>) | MetaData(metadata: Metadata)

  datatype Node = File(data: Data) | Dir(children: map<string, Node>)

  type Path = seq<string>

  const EMPTY_DIR := Dir(map[])

  // ----- Reading -----

  function At(n: Node, path: Path): Option<Node> {
    if path == [] then Some(n)
    else if n.Dir? && path[0] in n.children then At(n.children[path[0]], path[1..])
    else None
  }

  predicate IsDir(n: Node, path: Path) {
    At(n, path).Some? && At(n, path).value.Dir?
  }

  /** No file stands where `path` needs a directory. */
  predicate Clear(n: Node, path: Path) {
    n.Dir? && (path != [] && path[0] in n.children ==> Clear(n.children[path[0]], path[1..]))
  }

  /** The paths of all directories. */
  ghost function Dirs(n: Node): set<Path> {
    match n
    case File(_) => {}
    case Dir(children) => {[]} + set name, p | name in children && p in Dirs(children[name]) :: [name] + p
  }

  lemma {:induction false} DirsExact(n: Node, path: Path)
    ensures path in Dirs(n) <==> IsDir(n, path)
    decreases path
  {
    if n.Dir? && path != [] {
      assert path == [path[0]] + path[1..];
      if path[0] in n.children {
        DirsExact(n.children[path[0]], path[1..]);
      }
      if path in Dirs(n) {
        var name, p :| name in n.children && p in Dirs(n.children[name]) && path == [name] + p;
        assert path[1..] == p;
      }
    }
  }

  lemma {:induction false} AtConcat(n: Node, p: Path, q: Path)
    ensures At(n, p + q) == if At(n, p).Some? then At(At(n, p).value, q) else None
  {
    if p == [] {
      assert p + q == q;
    } else {
      assert (p + q)[1..] == p[1..] + q;
      if n.Dir? && p[0] in n.children {
        AtConcat(n.children[p[0]], p[1..], q);
      }
    }
  }

  // ----- Writing -----

  /** `n` with `x` at `path`, making the directories on the way. */
  function Put(n: Node, path: Path, x: Node): Node
    requires Clear(n, path)
    decreases path
  {
    if path == [] then x
    else
      var child := if path[0] in n.children then n.children[path[0]] else EMPTY_DIR;
      Dir(n.children[path[0] := Put(child, path[1..], x)])
  }

  /** `n` without what is at `path`. */
  function Drop(n: Node, path: Path): Node
    requires path != []
  {
    if n.File? || path[0] !in n.children then n
    else if |path| == 1 then Dir(n.children - {path[0]})
    else Dir(n.children[path[0] := Drop(n.children[path[0]], path[1..])])
  }

  lemma {:induction false} AtPut(n: Node, path: Path, x: Node)
    requires Clear(n, path)
    ensures At(Put(n, path, x), path) == Some(x)
    decreases path
  {
    if path != [] {
      var child := if path[0] in n.children then n.children[path[0]] else EMPTY_DIR;
      AtPut(child, path[1..], x);
    }
  }

  /** What is neither above nor below `path` stays. */
  lemma {:induction false} AtPutApart(n: Node, path: Path, x: Node, q: Path)
    requires Clear(n, path) && !(path <= q) && !(q <= path)
    ensures At(Put(n, path, x), q) == At(n, q)
    decreases path
  {
    var child := if path[0] in n.children then n.children[path[0]] else EMPTY_DIR;
    if path[0] == q[0] {
      assert path == [path[0]] + path[1..] && q == [q[0]] + q[1..];
      AtPutApart(child, path[1..], x, q[1..]);
    }
  }

  /** What is not below `path` stays free of files. */
  lemma {:induction false} ClearPut(n: Node, path: Path, x: Node, q: Path)
    requires Clear(n, path) && Clear(n, q) && !(path <= q)
    ensures Clear(Put(n, path, x), q)
    decreases path
  {
    var child := if path[0] in n.children then n.children[path[0]] else EMPTY_DIR;
    if q != [] && path[0] == q[0] {
      assert path == [path[0]] + path[1..] && q == [q[0]] + q[1..];
      ClearPut(child, path[1..], x, q[1..]);
    }
  }

  /** Above `path` there are directories afterwards. */
  lemma {:induction false} PutMakesDirs(n: Node, path: Path, x: Node, q: Path)
    requires Clear(n, path) && q <= path && q != path
    ensures IsDir(Put(n, path, x), q)
    decreases path
  {
    if q != [] {
      var child := if path[0] in n.children then n.children[path[0]] else EMPTY_DIR;
      assert q[1..] <= path[1..];
      PutMakesDirs(child, path[1..], x, q[1..]);
    }
  }

  lemma {:induction false} PutPut(n: Node, path: Path, x: Node, y: Node)
    requires Clear(n, path)
    ensures Clear(Put(n, path, x), path) || x.File?
    ensures x.Dir? ==> Put(Put(n, path, x), path, y) == Put(n, path, y)
    decreases path
  {
    if path != [] {
      var child := if path[0] in n.children then n.children[path[0]] else EMPTY_DIR;
      PutPut(child, path[1..], x, y);
    }
  }

  /** Putting below an existing directory puts into that directory. */
  lemma {:induction false} PutBelow(n: Node, path: Path, q: Path, x: Node)
    requires At(n, path).Some? && Clear(n, path) && Clear(At(n, path).value, q)
    ensures Clear(n, path + q) && Put(n, path + q, x) == Put(n, path, Put(At(n, path).value, q, x))
  {
    if path == [] {
      assert path + q == q;
    } else {
      assert (path + q)[1..] == path[1..] + q;
      PutBelow(n.children[path[0]], path[1..], q, x);
    }
  }

  lemma {:induction false} ExistingIsClear(n: Node, path: Path)
    requires IsDir(n, path)
    ensures Clear(n, path)
  {
    if path != [] {
      ExistingIsClear(n.children[path[0]], path[1..]);
    }
  }

  /** Putting back what is there changes nothing. */
  lemma {:induction false} PutSame(n: Node, path: Path)
    requires At(n, path).Some? && Clear(n, path)
    ensures Put(n, path, At(n, path).value) == n
  {
    if path != [] {
      PutSame(n.children[path[0]], path[1..]);
    }
  }

  // ----- Removing -----

  /** Dropping changes nothing outside the subtree dropped. */
  lemma {:induction false} AtDrop(n: Node, path: Path, q: Path)
    requires path != [] && !(q <= path)
    ensures At(Drop(n, path), q) == if path <= q then None else At(n, q)
  {
    if n.Dir? && path[0] in n.children {
      assert path == [path[0]] + path[1..] && q == [q[0]] + q[1..];
      if |path| > 1 && path[0] == q[0] {
        AtDrop(n.children[path[0]], path[1..], q[1..]);
      }
    } else if path <= q {
      assert q[0] == path[0];
    }
  }

  lemma {:induction false} AtDropped(n: Node, path: Path)
    requires path != []
    ensures At(Drop(n, path), path) == None
  {
    if n.Dir? && path[0] in n.children && |path| > 1 {
      AtDropped(n.children[path[0]], path[1..]);
    }
  }

  lemma {:induction false} ClearDrop(n: Node, path: Path, q: Path)
    requires path != [] && Clear(n, q)
    ensures Clear(Drop(n, path), q)
  {
    if path[0] in n.children && |path| > 1 && q != [] && q[0] == path[0] {
      ClearDrop(n.children[path[0]], path[1..], q[1..]);
    }
  }

  // ----- Working inside a directory -----

  lemma InAt(n: Node, path: Path, d: Node, q: Path)
    requires Clear(n, path)
    ensures At(Put(n, path, d), path + q) == At(d, q)
  {
    AtPut(n, path, d);
    AtConcat(Put(n, path, d), path, q);
  }

  lemma InPut(n: Node, path: Path, d: Node, q: Path, x: Node)
    requires Clear(n, path) && Clear(d, q)
    ensures Clear(Put(n, path, d), path + q)
    ensures Put(Put(n, path, d), path + q, x) == Put(n, path, Put(d, q, x))
  {
    var n' := Put(n, path, d);
    PutPut(n, path, d, Put(d, q, x));
    AtPut(n, path, d);
    PutBelow(n', path, q, x);
  }

  lemma {:induction false} InDrop(n: Node, path: Path, d: Node, q: Path)
    requires Clear(n, path) && q != []
    ensures Drop(Put(n, path, d), path + q) == Put(n, path, Drop(d, q))
    decreases path
  {
    if path == [] {
      assert path + q == q;
    } else {
      assert (path + q)[1..] == path[1..] + q;
      var child := if path[0] in n.children then n.children[path[0]] else EMPTY_DIR;
      InDrop(child, path[1..], d, q);
    }
  }

  lemma {:induction false} ClearLast(n: Node, path: Path, name: string)
    requires Clear(n, path) && (At(n, path + [name]).Some? ==> At(n, path + [name]).value.Dir?)
    ensures Clear(n, path + [name])
    decreases path
  {
    var longer := path + [name];
    if path == [] {
      assert longer == [name] && longer[1..] == [];
      if name in n.children {
        assert At(n, longer) == At(n.children[name], []) == Some(n.children[name]);
        assert Clear(n.children[name], []);
      }
    } else {
      assert longer[0] == path[0] && longer[1..] == path[1..] + [name];
      if path[0] in n.children {
        ClearLast(n.children[path[0]], path[1..], name);
      }
    }
  }

  /** Putting below a missing directory makes that directory on the way. */
  lemma {:induction false} PutNew(n: Node, path: Path, q: Path, x: Node)
    requires Clear(n, path) && At(n, path).None?
    ensures Clear(n, path + q) && Put(n, path + q, x) == Put(n, path, Put(EMPTY_DIR, q, x))
    decreases path
  {
    assert (path + q)[1..] == path[1..] + q;
    if path[0] in n.children {
      PutNew(n.children[path[0]], path[1..], q, x);
    } else {
      EmptyClear(path[1..] + q);
      PutIntoEmpty(path[1..], q, x);
    }
  }

  lemma {:induction false} EmptyClear(path: Path)
    ensures Clear(EMPTY_DIR, path)
  {
  }

  lemma {:induction false} PutIntoEmpty(path: Path, q: Path, x: Node)
    ensures Put(EMPTY_DIR, path + q, x) == Put(EMPTY_DIR, path, Put(EMPTY_DIR, q, x))
    decreases path
  {
    if path == [] {
      assert path + q == q;
    } else {
      assert (path + q)[1..] == path[1..] + q;
      PutIntoEmpty(path[1..], q, x);
    }
  }

  // ----- File operations -----

  function Parent(path: Path): Path
    requires path != []
  {
    path[..|path| - 1]
  }

  lemma ClearUnderParent(n: Node, path: Path)
    requires path != [] && Clear(n, Parent(path)) && At(n, path).None?
    ensures Clear(n, path)
  {
    assert path == Parent(path) + [path[|path| - 1]];
    ClearLast(n, Parent(path), path[|path| - 1]);
  }

  /** The system takes no path with a NUL in it; what else it may refuse is not modelled. */
  predicate Nameable(path: Path) {
    !Holds(path, '\0')
  }

  lemma NameableConcat(p: Path, q: Path)
    ensures Nameable(p + q) <==> Nameable(p) && Nameable(q)
  {
    HoldsConcat(p, q, '\0');
  }

  lemma NameableOne(name: string)
    ensures Nameable([name]) <==> '\0' !in name
  {
    HoldsOne(name, '\0');
  }

  /** `create_dir_all`; `None` is an error, and then nothing is made. */
  function CreateDirAll(n: Node, path: Path): Option<Node> {
    if !Nameable(path) || !Clear(n, path) then None
    else Some(if At(n, path).Some? then n else Put(n, path, EMPTY_DIR))
  }

  lemma {:induction false} ClearExisting(n: Node, path: Path)
    requires Clear(n, path) && At(n, path).Some?
    ensures IsDir(n, path)
  {
    if path != [] {
      ClearExisting(n.children[path[0]], path[1..]);
    }
  }

  lemma CreateDirAllMakes(n: Node, path: Path)
    requires CreateDirAll(n, path).Some?
    ensures IsDir(CreateDirAll(n, path).value, path)
  {
    if At(n, path).Some? {
      ClearExisting(n, path);
    } else {
      AtPut(n, path, EMPTY_DIR);
    }
  }

  datatype MkdirOutcome = Made(tree: Node) | AlreadyExists | MkdirFailed

  /** `create_dir`. */
  function CreateDir(n: Node, path: Path): MkdirOutcome
    requires path != []
  {
    if At(n, path).Some? then AlreadyExists
    else if !IsDir(n, Parent(path)) then MkdirFailed
    else
      ExistingIsClear(n, Parent(path));
      ClearUnderParent(n, path);
      Made(Put(n, path, EMPTY_DIR))
  }

  /** `write`: makes or replaces a file. */
  function WriteFile(n: Node, path: Path, data: Data): Option<Node>
    requires path != []
  {
    if !IsDir(n, Parent(path)) || IsDir(n, path) then None
    else
      ExistingIsClear(n, Parent(path));
      ClearDrop(n, path, Parent(path));
      AtDropped(n, path);
      ClearUnderParent(Drop(n, path), path);
      Some(Put(Drop(n, path), path, File(data)))
  }

  /** `rename` of a directory: the target may only be an empty directory. */
  function Rename(n: Node, from: Path, to: Path): Option<Node>
    requires from != [] && to != []
  {
    if !IsDir(n, from) || from <= to || !IsDir(n, Parent(to)) then None
    else if At(n, to).Some? && At(n, to) != Some(EMPTY_DIR) then None
    else
      var cut := Drop(Drop(n, from), to);
      ExistingIsClear(n, Parent(to));
      ClearDrop(n, from, Parent(to));
      ClearDrop(Drop(n, from), to, Parent(to));
      AtDropped(Drop(n, from), to);
      ClearUnderParent(cut, to);
      Some(Put(cut, to, At(n, from).value))
  }

  /** `remove_dir`: only an empty directory goes. */
  function RemoveDir(n: Node, path: Path): Option<Node>
    requires path != []
  {
    if At(n, path) == Some(EMPTY_DIR) then Some(Drop(n, path)) else None
  }

  /** `remove_dir_all`. */
  function RemoveDirAll(n: Node, path: Path): Option<Node>
    requires path != []
  {
    if IsDir(n, path) then Some(Drop(n, path)) else None
  }

  lemma ChildThere(n: Node, dir: Path, name: string)
    requires IsDir(n, dir)
    ensures At(n, dir + [name]).Some? <==> name in At(n, dir).value.children
    ensures Parent(dir + [name]) == dir
    ensures name in At(n, dir).value.children ==> At(n, dir + [name]) == Some(At(n, dir).value.children[name])
  {
    AtConcat(n, dir, [name]);
    assert [name][1..] == [];
  }

  /** Making a directory in `dir` for a while: what its siblings are, and that it can be undone. */
  lemma MkdirBeside(n: Node, dir: Path, name: string, sibling: string)
    requires IsDir(n, dir) && name !in At(n, dir).value.children && sibling != name
    ensures CreateDir(n, dir + [name]).Made?
    ensures var n' := CreateDir(n, dir + [name]).tree;
            Clear(n, dir + [name]) && n' == Put(n, dir + [name], EMPTY_DIR) &&
            (At(n', dir + [sibling]).Some? <==> sibling in At(n, dir).value.children) &&
            RemoveDir(n', dir + [name]) == Some(n)
  {
    ChildThere(n, dir, name);
    ChildThere(n, dir, sibling);
    var path, other := dir + [name], dir + [sibling];
    DropPut(n, path, EMPTY_DIR);
    AtPut(n, path, EMPTY_DIR);
    assert path[|dir|] == name && other[|dir|] == sibling;
    AtPutApart(n, path, EMPTY_DIR, other);
  }

  lemma {:induction false} DropPut(n: Node, path: Path, x: Node)
    requires path != [] && IsDir(n, Parent(path)) && At(n, path).None?
    ensures Clear(n, path) && Drop(Put(n, path, x), path) == n
  {
    ExistingIsClear(n, Parent(path));
    ClearUnderParent(n, path);
    if |path| == 1 {
      assert n.children[path[0] := Put(EMPTY_DIR, path[1..], x)] - {path[0]} == n.children;
    } else {
      var tail := path[1..];
      assert Parent(tail) == Parent(path)[1..];
      DropPut(n.children[path[0]], tail, x);
      assert n.children[path[0] := n.children[path[0]]] == n.children;
    }
  }
}
