/** `iter_artifact_dirs`: the walk that finds the artifact directories below a root. */
module ArtifactWalk {
  import opened Wrappers
  import opened Orderings
  import opened FileTree
  import opened ArtifactLayout

  /** `dir` lies below `root` without passing through a `versions` directory. */
  predicate Below(root: Path, dir: Path) {
    root <= dir && VERSIONS !in dir[|root|..]
  }

  /** The directory is there and is one of the walk's. */
  predicate Reachable(fs: Node, root: Path, dir: Path) {
    Below(root, dir) && IsDir(fs, dir)
  }

  /** `p` is a subdirectory of `dir` that the walk goes into. */
  predicate Subdir(fs: Node, dir: Path, p: Path) {
    p != [] && Parent(p) == dir && p[|p| - 1] != VERSIONS && IsDir(fs, p)
  }

  ghost predicate Subdirs(fs: Node, dir: Path, paths: seq<Path>) {
    NoRepeats(paths) && forall p :: p in paths <==> Subdir(fs, dir, p)
  }

  /** Nothing waits twice, or after it was visited. */
  ghost predicate Waiting(stack: seq<Path>, visited: set<Path>) {
    NoRepeats(stack) && forall d :: d in stack ==> d !in visited
  }

  predicate Found(stack: seq<Path>, visited: set<Path>, d: Path) {
    d in visited || d in stack
  }

  /** Whatever was found is to be visited, and was found from its parent. */
  ghost predicate Sound(fs: Node, root: Path, stack: seq<Path>, visited: set<Path>) {
    forall d :: Found(stack, visited, d) ==> Reachable(fs, root, d) && (d != root ==> d != [] && Parent(d) in visited)
  }

  /** The root and the subdirectories of what was visited were found. */
  ghost predicate Closed(fs: Node, root: Path, stack: seq<Path>, visited: set<Path>) {
    Found(stack, visited, root) &&
    forall p, d :: d in visited && Subdir(fs, d, p) ==> Found(stack, visited, p)
  }

  /** The state of a walk from `root`. */
  ghost predicate Walking(fs: Node, root: Path, stack: seq<Path>, visited: set<Path>) {
    Waiting(stack, visited) && Sound(fs, root, stack, visited) && Closed(fs, root, stack, visited)
  }

  /** What is found under the directory on top is new. */
  lemma FoundNew(fs: Node, root: Path, stack: seq<Path>, visited: set<Path>, d: Path, p: Path)
    requires Waiting(stack, visited) && Sound(fs, root, stack, visited) && d in stack && Subdir(fs, d, p)
    ensures !Found(stack, visited, p) && Reachable(fs, root, p) && p != d && p != root
  {
    assert Found(stack, visited, d);
    hide IsDir;
    SubdirReachable(fs, root, d, p);
  }

  lemma SubdirReachable(fs: Node, root: Path, dir: Path, p: Path)
    requires Below(root, dir) && Subdir(fs, dir, p)
    ensures Reachable(fs, root, p) && p != root
  {
    assert p == dir + [p[|p| - 1]];
    assert p[|root|..] == dir[|root|..] + [p[|p| - 1]];
  }

  lemma WalkStep(fs: Node, root: Path, stack: seq<Path>, visited: set<Path>, paths: seq<Path>)
    requires Walking(fs, root, stack, visited) && stack != []
    requires Subdirs(fs, stack[|stack| - 1], paths)
    ensures Walking(fs, root, stack[..|stack| - 1] + paths, visited + {stack[|stack| - 1]})
  {
    var d, rest := stack[|stack| - 1], stack[..|stack| - 1];
    var stack', visited' := rest + paths, visited + {d};
    assert stack == rest + [d];
    assert forall e :: Found(stack', visited', e) <==> Found(stack, visited, e) || e in paths;
    assert Waiting(stack', visited') by {
      forall p | p in paths ensures p !in visited' && p !in rest {
        FoundNew(fs, root, stack, visited, d, p);
      }
      ConcatNoRepeats(rest, paths);
    }
    assert Sound(fs, root, stack', visited') by {
      WalkSound(fs, root, stack, visited, paths, d, stack', visited');
    }
    hide Subdir;
  }

  lemma WalkSound(fs: Node, root: Path, stack: seq<Path>, visited: set<Path>, paths: seq<Path>, d: Path,
                  stack': seq<Path>, visited': set<Path>)
    requires Waiting(stack, visited) && Sound(fs, root, stack, visited) && d in stack && Subdirs(fs, d, paths)
    requires visited' == visited + {d}
    requires forall e :: Found(stack', visited', e) <==> Found(stack, visited, e) || e in paths
    ensures Sound(fs, root, stack', visited')
  {
    forall e | Found(stack', visited', e)
      ensures Reachable(fs, root, e) && (e != root ==> e != [] && Parent(e) in visited')
    {
      if e in paths {
        FoundNew(fs, root, stack, visited, d, e);
      }
    }
  }

  /** A walk that has come to its end has visited everything. */
  lemma {:induction false} WalkComplete(fs: Node, root: Path, visited: set<Path>, d: Path)
    requires Closed(fs, root, [], visited) && Reachable(fs, root, d)
    ensures d in visited
    decreases |d|
  {
    assert |d| == |root| ==> d == root;
    if d == root {
      assert Found([], visited, root);
    } else {
      ParentReachable(fs, root, d);
      WalkComplete(fs, root, visited, Parent(d));
      assert Found([], visited, d);
    }
  }

  lemma ParentReachable(fs: Node, root: Path, d: Path)
    requires Reachable(fs, root, d) && |d| > |root|
    ensures Reachable(fs, root, Parent(d)) && Subdir(fs, Parent(d), d)
  {
    var parent, name := Parent(d), d[|d| - 1];
    assert d == parent + [name];
    assert d[|root|..][|d| - 1 - |root|] == name;
    assert parent[|root|..] == d[|root|..][..|d| - 1 - |root|];
    AtConcat(fs, parent, [name]);
  }

  lemma WalkVisits(fs: Node, root: Path, visited: set<Path>)
    requires Sound(fs, root, [], visited) && Closed(fs, root, [], visited)
    ensures forall d :: d in visited <==> Reachable(fs, root, d)
  {
    forall d ensures d in visited <==> Reachable(fs, root, d) {
      assert d in visited ==> Found([], visited, d);
      if Reachable(fs, root, d) {
        WalkComplete(fs, root, visited, d);
      }
    }
  }

  lemma WalkEnds(fs: Node, root: Path, stack: seq<Path>, visited: set<Path>)
    requires Walking(fs, root, stack, visited) && stack == []
    ensures Sound(fs, root, [], visited) && Closed(fs, root, [], visited)
  {
  }

  lemma WalkStart(fs: Node, root: Path)
    requires IsDir(fs, root)
    ensures Walking(fs, root, [root], {})
  {
    assert root[|root|..] == [];
  }

  lemma NothingReachable(fs: Node, root: Path)
    requires !IsDir(fs, root)
    ensures forall d :: !Reachable(fs, root, d)
  {
    forall d ensures !Reachable(fs, root, d) {
      if root <= d {
        assert d == root + d[|root|..];
        AtConcat(fs, root, d[|root|..]);
        if At(fs, root).Some? && d[|root|..] != [] {
          assert At(At(fs, root).value, d[|root|..]).None?;
        }
      }
    }
  }

  /** Every step visits a directory of the tree that had not been visited. */
  lemma WalkProgress(fs: Node, root: Path, stack: seq<Path>, visited: set<Path>)
    requires Walking(fs, root, stack, visited) && stack != [] && visited <= Dirs(fs)
    ensures var d := stack[|stack| - 1];
            IsDir(fs, d) && visited + {d} <= Dirs(fs) && |Dirs(fs) - (visited + {d})| < |Dirs(fs) - visited|
  {
    var d := stack[|stack| - 1];
    assert Found(stack, visited, d);
    DirsExact(fs, d);
    assert d in Dirs(fs) - visited;
    StrictlyFewer(Dirs(fs) - (visited + {d}), Dirs(fs) - visited);
  }

  /** The subdirectories of `dir` with a name among `names`. */
  ghost predicate Among(fs: Node, dir: Path, names: set<string>, paths: seq<Path>) {
    NoRepeats(paths) && forall p :: p in paths <==> Subdir(fs, dir, p) && p[|p| - 1] in names
  }

  lemma AmongNone(fs: Node, dir: Path)
    ensures Among(fs, dir, {}, [])
  {
  }

  lemma LastIs(dir: Path, name: string, p: Path)
    ensures p == dir + [name] <==> p != [] && Parent(p) == dir && p[|p| - 1] == name
  {
    if p != [] {
      assert p == Parent(p) + [p[|p| - 1]];
    }
    assert (dir + [name])[..|dir|] == dir;
  }

  lemma AmongStep(fs: Node, dir: Path, names: set<string>, paths: seq<Path>, name: string)
    requires Among(fs, dir, names, paths) && name !in names
    ensures var path := dir + [name];
            Among(fs, dir, names + {name}, if IsDir(fs, path) && name != VERSIONS then paths + [path] else paths)
  {
    hide IsDir, Parent;
    var path := dir + [name];
    LastIs(dir, name, path);
    var paths' := if IsDir(fs, path) && name != VERSIONS then paths + [path] else paths;
    forall p ensures p in paths' <==> Subdir(fs, dir, p) && p[|p| - 1] in names + {name} {
      LastIs(dir, name, p);
    }
  }

  lemma AmongAll(fs: Node, dir: Path, paths: seq<Path>)
    requires IsDir(fs, dir) && Among(fs, dir, At(fs, dir).value.children.Keys, paths)
    ensures Subdirs(fs, dir, paths)
  {
    forall p | Subdir(fs, dir, p) ensures p[|p| - 1] in At(fs, dir).value.children {
      assert p == dir + [p[|p| - 1]];
      ChildThere(fs, dir, p[|p| - 1]);
    }
  }

  /** The entries of a directory that the walk goes into. */
  method ChildDirs(fs: Node, dir: Path) returns (paths: seq<Path>)
    requires IsDir(fs, dir)
    ensures Subdirs(fs, dir, paths)
  {
    var names := At(fs, dir).value.children.Keys;
    hide *;
    paths := [];
    var todo := names;
    AmongNone(fs, dir);
    assert names - todo == {};
    while todo != {}
      invariant todo <= names && Among(fs, dir, names - todo, paths)
      decreases |todo|
    {
      var name :| name in todo;
      OneMoreDone(names, todo, name);
      AmongStep(fs, dir, names - todo, paths, name);
      todo := todo - {name};
      if IsDir(fs, dir + [name]) && name != VERSIONS {
        paths := paths + [dir + [name]];
      }
    }
    assert names - todo == names;
    AmongAll(fs, dir, paths);
  }

  /** `iter_artifact_dirs`: the directories below `root` that have a `versions` directory. */
  method IterArtifactDirs(fs: Node, root: Path) returns (result: seq<Path>)
    ensures forall d :: d in result <==> Reachable(fs, root, d) && IsDir(fs, d + [VERSIONS])
  {
    result := [];
    if !IsDir(fs, root) {
      NothingReachable(fs, root);
      return;
    }
    var stack := [root];
    ghost var visited: set<Path> := {};
    WalkStart(fs, root);
    hide Walking, IsDir, Dirs;
    while stack != []
      invariant Walking(fs, root, stack, visited)
      invariant visited <= Dirs(fs)
      invariant forall d :: d in result <==> d in visited && IsDir(fs, d + [VERSIONS])
      decreases |Dirs(fs) - visited|
    {
      var dir := stack[|stack| - 1];
      WalkProgress(fs, root, stack, visited);
      if IsDir(fs, dir + [VERSIONS]) {
        result := result + [dir];
      }
      var paths := ChildDirs(fs, dir);
      WalkStep(fs, root, stack, visited, paths);
      stack := stack[..|stack| - 1] + paths;
      visited := visited + {dir};
    }
    assert Sound(fs, root, [], visited) && Closed(fs, root, [], visited) by { WalkEnds(fs, root, stack, visited); }
    WalkVisits(fs, root, visited);
  }
}
