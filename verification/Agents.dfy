/** The immutable shape of an agent tree and its lookups by name. */
module Agents {
  import opened Wrappers

  datatype Agent = Agent(name: string, subAgents: seq<Agent>)

  /** The agent called `name`: this one first, then its descendants in order. */
  function FindAgent(a: Agent, name: string): Option<Agent>
    decreases a, 1
  {
    if a.name == name then Some(a) else FindAmong(a.subAgents, name)
  }

  function FindAmong(subs: seq<Agent>, name: string): Option<Agent>
    decreases subs, 0
  {
    if subs == [] then None
    else
      var found := FindAgent(subs[0], name);
      if found.Some? then found else FindAmong(subs[1..], name)
  }

  function Names(a: Agent): set<string>
    decreases a, 1
  {
    {a.name} + NamesAmong(a.subAgents)
  }

  function NamesAmong(subs: seq<Agent>): set<string>
    decreases subs, 0
  {
    if subs == [] then {} else Names(subs[0]) + NamesAmong(subs[1..])
  }

  /** No two agents of the tree share a name. */
  predicate UniqueNames(a: Agent)
    decreases a, 1
  {
    a.name !in NamesAmong(a.subAgents) && UniqueAmong(a.subAgents)
  }

  predicate UniqueAmong(subs: seq<Agent>)
    decreases subs, 0
  {
    subs == [] ||
    (UniqueNames(subs[0]) && Names(subs[0]) !! NamesAmong(subs[1..]) && UniqueAmong(subs[1..]))
  }

  /** `x` is `a` or one of its descendants. */
  ghost predicate Within(a: Agent, x: Agent)
    decreases a
  {
    x == a || exists i :: 0 <= i < |a.subAgents| && Within(a.subAgents[i], x)
  }

  lemma {:induction false} WithinNamed(a: Agent, x: Agent)
    requires Within(a, x)
    ensures Names(x) <= Names(a)
    decreases a
  {
    if x != a {
      var i :| 0 <= i < |a.subAgents| && Within(a.subAgents[i], x);
      WithinNamed(a.subAgents[i], x);
      NamedAmong(a.subAgents, i);
    }
  }

  lemma {:induction false} NamedAmong(subs: seq<Agent>, i: nat)
    requires i < |subs|
    ensures Names(subs[i]) <= NamesAmong(subs)
  {
    if i > 0 {
      NamedAmong(subs[1..], i - 1);
    }
  }

  /** The agents of the tree, each before its descendants and those in order. */
  function PreOrder(a: Agent): seq<Agent>
    decreases a, 1
  {
    [a] + PreOrderAmong(a.subAgents)
  }

  function PreOrderAmong(subs: seq<Agent>): seq<Agent>
    decreases subs, 0
  {
    if subs == [] then [] else PreOrder(subs[0]) + PreOrderAmong(subs[1..])
  }

  /** `found` is the first of the agents that has the name, or none has it. */
  ghost predicate IsFirst(found: Option<Agent>, agents: seq<Agent>, name: string) {
    if found.None? then forall j :: 0 <= j < |agents| ==> agents[j].name != name
    else exists i :: 0 <= i < |agents| && agents[i] == found.value && FirstAt(agents, name, i)
  }

  ghost predicate FirstAt(agents: seq<Agent>, name: string, i: int)
    requires 0 <= i < |agents|
  {
    agents[i].name == name && forall j :: 0 <= j < i ==> agents[j].name != name
  }

  lemma FirstOfBoth(x: Option<Agent>, xs: seq<Agent>, y: Option<Agent>, ys: seq<Agent>, name: string)
    requires IsFirst(x, xs, name) && IsFirst(y, ys, name)
    ensures IsFirst(if x.Some? then x else y, xs + ys, name)
  {
    var all := xs + ys;
    assert forall j :: 0 <= j < |ys| ==> all[|xs| + j] == ys[j];
    if x.Some? {
      var i :| 0 <= i < |xs| && xs[i] == x.value && FirstAt(xs, name, i);
      assert FirstAt(all, name, i);
    } else if y.Some? {
      var i :| 0 <= i < |ys| && ys[i] == y.value && FirstAt(ys, name, i);
      assert FirstAt(all, name, |xs| + i);
    }
  }

  /** A lookup finds the first agent of that name, from the top down and then from left to right. */
  lemma {:induction false} FindFirst(a: Agent, name: string)
    ensures IsFirst(FindAgent(a, name), PreOrder(a), name)
    decreases a, 1
  {
    FindFirstAmong(a.subAgents, name);
    var own := if a.name == name then Some(a) else None;
    assert IsFirst(own, [a], name) by {
      assert a.name == name ==> FirstAt([a], name, 0);
    }
    FirstOfBoth(own, [a], FindAmong(a.subAgents, name), PreOrderAmong(a.subAgents), name);
  }

  lemma {:induction false} FindFirstAmong(subs: seq<Agent>, name: string)
    ensures IsFirst(FindAmong(subs, name), PreOrderAmong(subs), name)
    decreases subs, 0
  {
    if subs != [] {
      FindFirst(subs[0], name);
      FindFirstAmong(subs[1..], name);
      FirstOfBoth(FindAgent(subs[0], name), PreOrder(subs[0]), FindAmong(subs[1..], name), PreOrderAmong(subs[1..]), name);
    }
  }

  /** A lookup finds nothing exactly when the name is not in the tree. */
  lemma {:induction false} FindFails(a: Agent, name: string)
    ensures FindAgent(a, name).None? <==> name !in Names(a)
    decreases a, 1
  {
    FindFailsAmong(a.subAgents, name);
  }

  lemma {:induction false} FindFailsAmong(subs: seq<Agent>, name: string)
    ensures FindAmong(subs, name).None? <==> name !in NamesAmong(subs)
    decreases subs, 0
  {
    if subs != [] {
      FindFails(subs[0], name);
      FindFailsAmong(subs[1..], name);
    }
  }

  /** Whatever a lookup returns lies in the tree and bears the name asked for. */
  lemma {:induction false} FindSound(a: Agent, name: string)
    requires FindAgent(a, name).Some?
    ensures Within(a, FindAgent(a, name).value) && FindAgent(a, name).value.name == name
    decreases a, 1
  {
    if a.name != name {
      FindSoundAmong(a.subAgents, name);
    }
  }

  lemma {:induction false} FindSoundAmong(subs: seq<Agent>, name: string)
    requires FindAmong(subs, name).Some?
    ensures FindAmong(subs, name).value.name == name
    ensures exists i :: 0 <= i < |subs| && Within(subs[i], FindAmong(subs, name).value)
    decreases subs, 0
  {
    if FindAgent(subs[0], name).Some? {
      FindSound(subs[0], name);
    } else {
      FindSoundAmong(subs[1..], name);
      var i :| 0 <= i < |subs[1..]| && Within(subs[1..][i], FindAmong(subs[1..], name).value);
      assert subs[1..][i] == subs[i + 1];
    }
  }

  /** With unique names, looking an agent up by its name gives that very agent. */
  lemma {:induction false} FindUnique(a: Agent, x: Agent)
    requires UniqueNames(a) && Within(a, x)
    ensures FindAgent(a, x.name) == Some(x)
    decreases a, |a.subAgents| + 1
  {
    if x != a {
      var i :| 0 <= i < |a.subAgents| && Within(a.subAgents[i], x);
      WithinNamed(a.subAgents[i], x);
      NamedAmong(a.subAgents, i);
      FindUniqueAmong(a.subAgents, i, x);
    }
  }

  lemma {:induction false} FindUniqueAmong(subs: seq<Agent>, i: nat, x: Agent)
    requires UniqueAmong(subs) && i < |subs| && Within(subs[i], x)
    ensures FindAmong(subs, x.name) == Some(x)
    decreases subs, 0
  {
    if i == 0 {
      FindUnique(subs[0], x);
    } else {
      WithinNamed(subs[i], x);
      NamedAmong(subs[1..], i - 1);
      FindFails(subs[0], x.name);
      FindUniqueAmong(subs[1..], i - 1, x);
    }
  }

  lemma {:induction false} UniqueWithin(a: Agent, x: Agent)
    requires UniqueNames(a) && Within(a, x)
    ensures UniqueNames(x)
    decreases a
  {
    if x != a {
      var i :| 0 <= i < |a.subAgents| && Within(a.subAgents[i], x);
      UniqueAt(a.subAgents, i);
      UniqueWithin(a.subAgents[i], x);
    }
  }

  lemma {:induction false} UniqueAt(subs: seq<Agent>, i: nat)
    requires UniqueAmong(subs) && i < |subs|
    ensures UniqueNames(subs[i])
  {
    if i > 0 {
      UniqueAt(subs[1..], i - 1);
    }
  }

  lemma {:induction false} WithinTransitive(a: Agent, x: Agent, y: Agent)
    requires Within(a, x) && Within(x, y)
    ensures Within(a, y)
    decreases a
  {
    if x != a {
      var i :| 0 <= i < |a.subAgents| && Within(a.subAgents[i], x);
      WithinTransitive(a.subAgents[i], x, y);
    }
  }
}
