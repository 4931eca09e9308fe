/** Version directories: how they are named, listed and searched for a free number. */
module VersionListing {
  import opened Wrappers
  import opened Orderings
  import opened Decimals
  import opened ArtifactKeys
  import opened ArtifactSpec
  import opened FileTree
  import opened ArtifactLayout

  /** A version printed as a directory name. */
  function VersionText(v: int): string {
    if v < 0 then "-" + Digits(-v) else Digits(v)
  }

  /** `parse` of a directory name as a version: digits, with or without a sign. */
  function ParseVersion(name: string): Option<int> {
    if name == "" then None
    else if name[0] == '-' || name[0] == '+' then
      var digits := name[1..];
      if digits == "" || !AllDigits(digits) then None
      else
        var value: int := ValueOf(digits);
        Some(if name[0] == '-' then -value else value)
    else if AllDigits(name) then Some(ValueOf(name))
    else None
  }

  function PendingName(v: int): string {
    "." + VersionText(v) + ".pending"
  }

  predicate IsVersionName(children: map<string, Node>, name: string, v: int) {
    name in children && children[name].Dir? && ParseVersion(name) == Some(v)
  }

  ghost predicate HasVersion(children: map<string, Node>, v: int) {
    exists name :: IsVersionName(children, name, v)
  }

  /** `versions` are the numbers of the version directories, in order. */
  ghost predicate VersionsListed(children: map<string, Node>, versions: seq<int>) {
    (forall i, j :: 0 <= i < j < |versions| ==> versions[i] <= versions[j]) &&
    (forall v :: v in versions <==> HasVersion(children, v)) &&
    (OneNameEach(children) ==> NoRepeats(versions))
  }

  /** No version number is spelt in two ways. */
  ghost predicate OneNameEach(children: map<string, Node>) {
    forall n, m, v :: IsVersionName(children, n, v) && IsVersionName(children, m, v) ==> n == m
  }

  lemma DigitsParse(v: nat)
    ensures ParseVersion(Digits(v)) == Some(v) && VersionText(v) == Digits(v)
  {
    ValueOfDigits(v);
    assert IsDigit(Digits(v)[0]);
  }

  lemma EntryIsVersion(k: Key, parts: seq<Part>, name: string, v: int)
    requires forall i :: 0 <= i < |parts| ==> KeptWhole(parts[i])
    ensures IsVersionName(VersionEntries(k, parts), name, v) <==> 0 <= v < |parts| && name == Digits(v)
  {
    EntriesExact(k, parts, name);
    if name in VersionEntries(k, parts) {
      DigitsParse(ValueOf(name));
    }
    if 0 <= v < |parts| {
      DigitsParse(v);
      EntriesExact(k, parts, Digits(v));
    }
  }

  /** Ascending numbers that are exactly those below `n`. */
  lemma {:induction false} AscendingUpTo(s: seq<int>, n: nat)
    requires forall i, j :: 0 <= i < j < |s| ==> s[i] < s[j]
    requires forall v :: v in s <==> 0 <= v < n
    ensures s == UpTo(n)
  {
    assert s != [] ==> s[0] in s;
    if n > 0 {
      assert n - 1 in s;
      var last := |s| - 1;
      var i :| 0 <= i < |s| && s[i] == n - 1;
      assert s[last] in s;
      assert i == last;
      var t := s[..last];
      forall v ensures v in t <==> 0 <= v < n - 1 {
        if v in t {
          var j :| 0 <= j < last && s[j] == v;
          assert s[j] in s && s[j] < s[last];
        }
        if 0 <= v < n - 1 {
          assert v in s && s == t + [s[last]];
        }
      }
      AscendingUpTo(t, n - 1);
    }
  }

  /** The listing of the versions of a stored artifact. */
  lemma ListedUpTo(k: Key, parts: seq<Part>, versions: seq<int>)
    requires forall i :: 0 <= i < |parts| ==> KeptWhole(parts[i])
    requires VersionsListed(VersionEntries(k, parts), versions)
    ensures versions == UpTo(|parts|)
  {
    var children := VersionEntries(k, parts);
    hide VersionEntries, KeptWhole, IsVersionName;
    forall n, m, v | IsVersionName(children, n, v) && IsVersionName(children, m, v) ensures n == m {
      EntryIsVersion(k, parts, n, v);
      EntryIsVersion(k, parts, m, v);
    }
    forall v ensures v in versions <==> 0 <= v < |parts| {
      assert v in versions <==> HasVersion(children, v);
      if HasVersion(children, v) {
        var name :| IsVersionName(children, name, v);
        EntryIsVersion(k, parts, name, v);
      }
      if 0 <= v < |parts| {
        EntryIsVersion(k, parts, Digits(v), v);
      }
    }
    AscendingUpTo(versions, |parts|);
  }

  lemma {:induction false} UpToAt(n: nat, i: nat)
    requires i < n
    ensures |UpTo(n)| == n && UpTo(n)[i] == i && i in UpTo(n)
  {
    if i < n - 1 {
      UpToAt(n - 1, i);
      assert UpTo(n)[i] == UpTo(n - 1)[i];
    } else {
      UpToLength(n - 1);
    }
  }

  lemma {:induction false} UpToLength(n: nat)
    ensures |UpTo(n)| == n && forall v :: v in UpTo(n) <==> 0 <= v < n
  {
    if n > 0 {
      UpToLength(n - 1);
    }
  }

  lemma TextParses(v: int)
    ensures ParseVersion(VersionText(v)) == Some(v)
    ensures VersionText(v) != "" && VersionText(v)[0] != '.'
  {
    if v < 0 {
      ValueOfDigits(-v);
      assert VersionText(v)[1..] == Digits(-v);
    } else {
      DigitsParse(v);
      ValueOfDigits(v);
    }
  }

  lemma NamesDiffer(v: int, w: int)
    ensures VersionText(v) == VersionText(w) ==> v == w
    ensures PendingName(v) == PendingName(w) ==> v == w
    ensures PendingName(v) != VersionText(w)
  {
    TextParses(v);
    TextParses(w);
    hide VersionText, ParseVersion;
    var x, y := VersionText(v), VersionText(w);
    if PendingName(v) == PendingName(w) {
      assert |x| == |y|;
      assert PendingName(v)[1..][..|x|] == x && PendingName(w)[1..][..|y|] == y;
    }
  }

  /** The names in the way of a search for a free version from `v` on. */
  ghost function Taken(children: map<string, Node>, v: int): set<string> {
    set name | name in children && exists w: int :: w >= v && NamesVersion(name, w)
  }

  predicate NamesVersion(name: string, v: int) {
    name == PendingName(v) || name == VersionText(v)
  }

  lemma TakenShrinks(children: map<string, Node>, v: int, name: string)
    requires name in children && NamesVersion(name, v)
    ensures Taken(children, v + 1) < Taken(children, v)
  {
    forall n | n in Taken(children, v + 1) ensures n in Taken(children, v) && n != name {
      var w: int :| w >= v + 1 && NamesVersion(n, w);
      NamesDiffer(v, w);
      NamesDiffer(w, v);
      assert w >= v && NamesVersion(n, w);
    }
    assert v >= v && NamesVersion(name, v);
    assert name in Taken(children, v);
  }

  ghost predicate AboveVersions(children: map<string, Node>, v: int) {
    (forall u :: HasVersion(children, u) ==> u < v) && ((forall u :: !HasVersion(children, u)) ==> v >= 0)
  }

  predicate Free(children: map<string, Node>, v: int) {
    PendingName(v) !in children && VersionText(v) !in children
  }

  /** The least free version above all that are there. */
  ghost predicate FirstFree(children: map<string, Node>, v: int) {
    AboveVersions(children, v) && Free(children, v) &&
    forall w :: AboveVersions(children, w) && w < v ==> !Free(children, w)
  }

  function NextVersion(versions: seq<int>): int {
    if versions == [] then 0 else versions[|versions| - 1] + 1
  }

  lemma NextIsLeastAbove(children: map<string, Node>, versions: seq<int>)
    requires VersionsListed(children, versions)
    ensures forall w :: AboveVersions(children, w) <==> w >= NextVersion(versions)
  {
    hide HasVersion, OneNameEach;
    if versions != [] {
      var last := versions[|versions| - 1];
      assert last in versions && HasVersion(children, last);
      assert forall u :: u in versions ==> u <= last;
    }
  }

  lemma FirstFreeFound(children: map<string, Node>, listed: seq<int>, v: int)
    requires VersionsListed(children, listed) && v >= NextVersion(listed) && Free(children, v)
    requires forall w :: NextVersion(listed) <= w < v ==> !Free(children, w)
    ensures FirstFree(children, v)
  {
    NextIsLeastAbove(children, listed);
    hide VersionsListed, AboveVersions, Free;
  }

  /** One try of the search: what making the staging directory of `v` meets, and that trying again ends. */
  lemma TryVersion(n: Node, dir: Path, v: int)
    requires IsDir(n, dir)
    ensures var children, staging := At(n, dir).value.children, dir + [PendingName(v)];
            if PendingName(v) in children then
              CreateDir(n, staging) == AlreadyExists && !Free(children, v) && |Taken(children, v + 1)| < |Taken(children, v)|
            else
              CreateDir(n, staging).Made? && Clear(n, staging) &&
              var n' := CreateDir(n, staging).tree;
              n' == Put(n, staging, EMPTY_DIR) && RemoveDir(n', staging) == Some(n) &&
              (At(n', dir + [VersionText(v)]).None? <==> Free(children, v)) &&
              (!Free(children, v) ==> |Taken(children, v + 1)| < |Taken(children, v)|)
  {
    var children := At(n, dir).value.children;
    hide PendingName, VersionText, Taken;
    if PendingName(v) in children {
      ChildThere(n, dir, PendingName(v));
      TakenShrinks(children, v, PendingName(v));
      StrictlyFewer(Taken(children, v + 1), Taken(children, v));
    } else {
      NamesDiffer(v, v);
      MkdirBeside(n, dir, PendingName(v), VersionText(v));
      if VersionText(v) in children {
        TakenShrinks(children, v, VersionText(v));
        StrictlyFewer(Taken(children, v + 1), Taken(children, v));
      }
    }
  }

  /** In a stored artifact's directory, the first free version is the number of versions there are. */
  lemma FirstFreeIsCount(k: Key, parts: seq<Part>, v: int)
    requires forall i :: 0 <= i < |parts| ==> KeptWhole(parts[i])
    requires FirstFree(VersionEntries(k, parts), v)
    ensures v == |parts|
  {
    var children, n := VersionEntries(k, parts), |parts|;
    assert HasVersion(children, n - 1) <==> n > 0 by {
      EntryIsVersion(k, parts, Digits(if n > 0 then n - 1 else 0), n - 1);
      if HasVersion(children, n - 1) {
        var name :| IsVersionName(children, name, n - 1);
        EntryIsVersion(k, parts, name, n - 1);
      }
    }
    forall u | HasVersion(children, u) ensures 0 <= u < n {
      var name :| IsVersionName(children, name, u);
      EntryIsVersion(k, parts, name, u);
    }
    assert Free(children, n) by {
      DigitsParse(n);
      ValueOfDigits(n);
      EntriesExact(k, parts, Digits(n));
      EntriesExact(k, parts, PendingName(n));
      assert PendingName(n)[0] == '.';
    }
  }

  predicate IntLeq(a: int, b: int) {
    a <= b
  }

  /** `found` are the version numbers among `names`. */
  ghost predicate FoundIn(children: map<string, Node>, names: set<string>, found: seq<int>) {
    (forall v :: v in found <==> exists name :: name in names && IsVersionName(children, name, v)) &&
    (OneNameEach(children) ==> NoRepeats(found))
  }

  lemma FoundStep(children: map<string, Node>, names: set<string>, found: seq<int>, name: string)
    requires FoundIn(children, names, found) && name in children && name !in names
    ensures var v := ParseVersion(name);
            FoundIn(children, names + {name}, if children[name].Dir? && v.Some? then found + [v.value] else found)
  {
    hide ParseVersion;
    var v := ParseVersion(name);
    var found' := if children[name].Dir? && v.Some? then found + [v.value] else found;
    forall u ensures u in found' <==> exists n :: n in names + {name} && IsVersionName(children, n, u) {
      if u in found' {
        if u in found {
          var n :| n in names && IsVersionName(children, n, u);
          assert n in names + {name};
        } else {
          assert name in names + {name} && IsVersionName(children, name, u);
        }
      }
    }
    if children[name].Dir? && v.Some? && OneNameEach(children) {
      assert IsVersionName(children, name, v.value);
      assert v.value !in found;
    }
  }

  lemma FoundHas(children: map<string, Node>, found: seq<int>, v: int)
    requires FoundIn(children, children.Keys, found)
    ensures v in found <==> HasVersion(children, v)
  {
    hide ParseVersion;
  }

  lemma FoundAll(children: map<string, Node>, found: seq<int>)
    requires FoundIn(children, children.Keys, found)
    ensures VersionsListed(children, Sort(found, IntLeq))
  {
    var r := Sort(found, IntLeq);
    assert TotalPreorder(IntLeq);
    SortKeeps(found, IntLeq);
    assert forall i, j :: 0 <= i < j < |r| ==> IntLeq(r[i], r[j]);
    hide HasVersion, OneNameEach, Sort, IsVersionName;
    forall v ensures v in r <==> HasVersion(children, v) {
      FoundHas(children, found, v);
    }
  }

  method ListVersionsOnDisk(fs: Node, dir: Path) returns (versions: seq<int>)
    ensures IsDir(fs, dir + [VERSIONS]) ==> VersionsListed(At(fs, dir + [VERSIONS]).value.children, versions)
    ensures !IsDir(fs, dir + [VERSIONS]) ==> versions == []
  {
    var node := At(fs, dir + [VERSIONS]);
    if node.None? || node.value.File? {
      return [];
    }
    var children := node.value.children;
    var found: seq<int> := [];
    var todo := children.Keys;
    while todo != {}
      invariant todo <= children.Keys && FoundIn(children, children.Keys - todo, found)
      decreases |todo|
    {
      var name :| name in todo;
      FoundStep(children, children.Keys - todo, found, name);
      assert children.Keys - todo + {name} == children.Keys - (todo - {name});
      todo := todo - {name};
      if children[name].Dir? {
        var v := ParseVersion(name);
        if v.Some? {
          found := found + [v.value];
        }
      }
    }
    assert children.Keys - todo == children.Keys;
    versions := Sort(found, IntLeq);
    FoundAll(children, found);
  }
}
