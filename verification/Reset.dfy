/** When the walk that resets an agent's descendants by name is finite, and what it clears. */
module Reset {
  import opened Wrappers
  import opened Orderings
  import opened Agents
  import opened Contexts

  function Height(a: Agent): nat
    decreases a, 1
  {
    HeightAmong(a.subAgents)
  }

  function HeightAmong(subs: seq<Agent>): nat
    decreases subs, 0
  {
    if subs == [] then 0
    else
      var first, rest := Height(subs[0]) + 1, HeightAmong(subs[1..]);
      if first > rest then first else rest
  }

  lemma {:induction false} HeightAt(subs: seq<Agent>, i: nat)
    requires i < |subs|
    ensures Height(subs[i]) < HeightAmong(subs)
  {
    if i > 0 {
      HeightAt(subs[1..], i - 1);
    }
  }

  /**
   * With unique names the walk from an agent is finite, because each lookup gives back the very
   * child whose name it was; it visits exactly the agent's strict descendants.
   */
  lemma {:induction false} UniqueNamesHalt(root: Agent, x: Agent, depth: nat)
    requires UniqueNames(root) && Within(root, x) && depth > Height(x)
    ensures Halts(root, x.name, depth) && Visited(root, x.name, depth) == NamesAmong(x.subAgents)
    decreases depth, 1
  {
    FindUnique(root, x);
    forall i | 0 <= i < |x.subAgents| ensures Within(root, x.subAgents[i]) && Height(x.subAgents[i]) < depth - 1 {
      assert Within(x, x.subAgents[i]) by { assert Within(x.subAgents[i], x.subAgents[i]); }
      WithinTransitive(root, x, x.subAgents[i]);
      HeightAt(x.subAgents, i);
    }
    UniqueNamesHaltAmong(root, x.subAgents, depth - 1);
  }

  lemma {:induction false} UniqueNamesHaltAmong(root: Agent, subs: seq<Agent>, depth: nat)
    requires UniqueNames(root)
    requires forall i :: 0 <= i < |subs| ==> Within(root, subs[i]) && Height(subs[i]) < depth
    ensures HaltsAmong(root, subs, depth) && VisitedAmong(root, subs, depth) == NamesAmong(subs)
    decreases depth, 2, |subs|
  {
    if subs != [] {
      UniqueNamesHalt(root, subs[0], depth);
      UniqueNamesHaltAmong(root, subs[1..], depth);
    }
  }

  /** In a tree of unique names every reset ends, and clears the strict descendants of the agent it names. */
  lemma UniqueReset(root: Agent, name: string)
    requires UniqueNames(root)
    ensures Halts(root, name, Height(root) + 1)
    ensures Visited(root, name, Height(root) + 1) ==
            match FindAgent(root, name)
            case Some(x) => NamesAmong(x.subAgents)
            case None => {}
  {
    if FindAgent(root, name).Some? {
      FindSound(root, name);
      var x := FindAgent(root, name).value;
      HeightWithin(root, x);
      UniqueNamesHalt(root, x, Height(root) + 1);
    }
  }

  lemma {:induction false} HeightWithin(a: Agent, x: Agent)
    requires Within(a, x)
    ensures Height(x) <= Height(a)
    decreases a
  {
    if x != a {
      var i :| 0 <= i < |a.subAgents| && Within(a.subAgents[i], x);
      HeightWithin(a.subAgents[i], x);
      HeightAt(a.subAgents, i);
    }
  }

  /** Clearing entries leaves the two maps coherent. */
  lemma ResetCoherent(m: Marks, gone: set<string>)
    requires Coherent(m)
    ensures Coherent(Without(m, gone))
  {
  }

  // ----- Without unique names -----

  /** One step of the walk: `child` names a sub-agent of the agent that `name` is looked up to. */
  predicate LeadsTo(root: Agent, name: string, child: string) {
    var found := FindAgent(root, name);
    found.Some? && exists i :: 0 <= i < |found.value.subAgents| && found.value.subAgents[i].name == child
  }

  /** A path the walk takes, name by name. */
  ghost predicate Walk(root: Agent, path: seq<string>) {
    path != [] && forall k :: 0 < k < |path| ==> LeadsTo(root, path[k - 1], path[k])
  }

  lemma {:induction false} HaltsChild(root: Agent, subs: seq<Agent>, i: nat, depth: nat)
    requires HaltsAmong(root, subs, depth) && i < |subs|
    ensures Halts(root, subs[i].name, depth)
  {
    if i > 0 {
      HaltsChild(root, subs[1..], i - 1, depth);
    }
  }

  /** A walk that halts within `depth` levels takes no path with more than `depth` steps. */
  lemma {:induction false} HaltingBoundsWalks(root: Agent, path: seq<string>, depth: nat)
    requires Walk(root, path) && Halts(root, path[0], depth)
    ensures |path| <= depth + 1
    decreases depth
  {
    if |path| > 1 {
      assert LeadsTo(root, path[0], path[1]);
      var subs := FindAgent(root, path[0]).value.subAgents;
      var i :| 0 <= i < |subs| && subs[i].name == path[1];
      HaltsChild(root, subs, i, depth - 1);
      HaltingBoundsWalks(root, path[1..], depth - 1);
    }
  }

  /** A path that meets a name twice can be run around for ever. */
  lemma {:induction false} Pump(root: Agent, path: seq<string>, i: nat, j: nat, length: nat) returns (longer: seq<string>)
    requires Walk(root, path) && i < j < |path| && path[i] == path[j]
    ensures Walk(root, longer) && longer[0] == path[0] && |longer| >= length
    decreases length - |path|
  {
    if |path| >= length {
      longer := path;
    } else {
      var around := path[..j + 1] + path[i + 1..];
      forall k | 0 < k < |around| ensures LeadsTo(root, around[k - 1], around[k]) {
        if k > j {
          assert around[k] == path[k - j + i] && around[k - 1] == path[k - 1 - j + i];
        }
      }
      longer := Pump(root, around, i, j, length);
    }
  }

  /** A walk that does not halt within `depth` levels takes some path of more than `depth` steps. */
  lemma {:induction false} EndlessWalk(root: Agent, name: string, depth: nat) returns (path: seq<string>)
    requires !Halts(root, name, depth)
    ensures Walk(root, path) && path[0] == name && |path| == depth + 1
    ensures forall k :: 0 <= k < |path| ==> FindAgent(root, path[k]).Some?
    decreases depth, 1, 0
  {
    if depth == 0 {
      path := [name];
    } else {
      var subs := FindAgent(root, name).value.subAgents;
      var i := EndlessChild(root, subs, depth - 1);
      var rest := EndlessWalk(root, subs[i].name, depth - 1);
      path := [name] + rest;
      forall k | 0 < k < |path| ensures LeadsTo(root, path[k - 1], path[k]) {
        if k > 1 {
          assert path[k] == rest[k - 1] && path[k - 1] == rest[k - 2];
        }
      }
    }
  }

  lemma {:induction false} EndlessChild(root: Agent, subs: seq<Agent>, depth: nat) returns (i: nat)
    requires !HaltsAmong(root, subs, depth)
    ensures i < |subs| && !Halts(root, subs[i].name, depth)
  {
    if !Halts(root, subs[0].name, depth) {
      i := 0;
    } else {
      i := EndlessChild(root, subs[1..], depth);
      i := i + 1;
    }
  }

  ghost predicate Ends(root: Agent, name: string) {
    exists depth: nat :: Halts(root, name, depth)
  }

  ghost predicate Cyclic(root: Agent, name: string) {
    exists path :: Walk(root, path) && path[0] == name && !NoRepeats(path)
  }

  lemma EndsOrCyclic(root: Agent, name: string, depth: nat)
    requires !Cyclic(root, name) && depth >= |Names(root)|
    ensures Halts(root, name, depth)
  {
    if !Halts(root, name, depth) {
      var path := EndlessWalk(root, name, depth);
      forall k | 0 <= k < |path| ensures path[k] in Names(root) {
        FindFails(root, path[k]);
      }
      Pigeonhole(path, Names(root));
    }
  }

  lemma NotBothEndsAndCyclic(root: Agent, path: seq<string>, depth: nat)
    requires Walk(root, path) && Halts(root, path[0], depth)
    ensures NoRepeats(path)
  {
    if i, j :| 0 <= i < j < |path| && path[i] == path[j] {
      var longer := Pump(root, path, i, j, depth + 2);
      HaltingBoundsWalks(root, longer, depth);
    }
  }

  /**
   * The reset from `name` ends exactly when no path of lookups from `name` meets a name twice; an
   * agent that shares its name with a descendant it leads to makes it run for ever.
   */
  lemma EndsUnlessCyclic(root: Agent, name: string)
    ensures Ends(root, name) <==> !Cyclic(root, name)
  {
    if Ends(root, name) {
      var depth: nat :| Halts(root, name, depth);
      forall path | Walk(root, path) && path[0] == name ensures NoRepeats(path) {
        NotBothEndsAndCyclic(root, path, depth);
      }
    } else if !Cyclic(root, name) {
      EndsOrCyclic(root, name, |Names(root)|);
    }
  }

  /** An agent with a child of its own name, which a build accepts, sends the reset round for ever. */
  lemma NamesakeChildNeverEnds(name: string, rest: seq<Agent>)
    ensures !Ends(Agent(name, [Agent(name, [])] + rest), name)
  {
    var root := Agent(name, [Agent(name, [])] + rest);
    var path := [name, name];
    assert root.subAgents[0].name == name;
    assert Walk(root, path) && path[0] == path[1] && !NoRepeats(path);
    EndsUnlessCyclic(root, name);
  }
}
