/** The agent tree on the heap: agents shared by handle, their parent links set once. */
module AgentTree {
  import opened Wrappers
  import opened Orderings
  import Agents

  datatype BuildError =
    | InvalidName(name: string)
    | ReservedName
    | AlreadyHasParent(child: string, current: string, parent: string)
    | ParentAgentInClone

  predicate IsLetter(c: char) {
    'a' <= c <= 'z' || 'A' <= c <= 'Z' || c == '_'
  }

  predicate IsIdentifier(name: string) {
    name != "" && IsLetter(name[0]) && forall i :: 0 < i < |name| ==> IsLetter(name[i]) || '0' <= name[i] <= '9'
  }

  /** `validate_name`. */
  function ValidateName(name: string): Option<BuildError> {
    if !IsIdentifier(name) then Some(InvalidName(name))
    else if name == "user" then Some(ReservedName)
    else None
  }

  /** What an agent's parent cell holds; once set it stays set. */
  datatype Link = Unset | SetTo(agent: Agent)

  class Agent {
    const name: string
    const description: string
    const subAgents: seq<Agent>
    var parent: Link
    /** Whether the agent still exists; an agent whose build failed does not, and links to it lead nowhere. */
    var live: bool
    /** More than the height of every sub-agent. */
    ghost const height: nat

    constructor (name: string, description: string, subAgents: seq<Agent>)
      ensures this.name == name && this.description == description && this.subAgents == subAgents
      ensures parent == Unset && live
      ensures forall c :: c in subAgents ==> c.height < height
    {
      this.name, this.description, this.subAgents := name, description, subAgents;
      this.parent, this.live := Unset, true;
      this.height := Above(subAgents);
    }

    /** `parent_agent`: the parent, if the cell is set and the parent still exists. */
    function ParentAgent(): Option<Agent>
      reads this, if parent.SetTo? then {parent.agent} else {}
    {
      if parent.SetTo? && parent.agent.live then Some(parent.agent) else None
    }
  }

  ghost function Above(agents: seq<Agent>): (h: nat)
    ensures forall c :: c in agents ==> c.height < h
  {
    if agents == [] then 0
    else
      var rest := Above(agents[1..]);
      if agents[0].height < rest then rest else agents[0].height + 1
  }

  // ----- What every sequence of builds keeps -----

  /** The links of the agents made so far, failed ones included, and which of them exist. */
  datatype View = View(parents: map<Agent, Link>, live: set<Agent>)

  ghost function ViewOf(all: set<Agent>): View
    reads all
  {
    View(map c | c in all :: c.parent, set c | c in all && c.live)
  }

  /** Sub-agents were there before, and are lower. */
  ghost predicate Closed(all: set<Agent>) {
    forall n, c :: n in all && c in n.subAgents ==> c in all && c.height < n.height
  }

  /** A link leads to an agent that has this one as a sub-agent. */
  ghost predicate LinksLeadBack(v: View) {
    forall c :: c in v.parents && v.parents[c].SetTo? ==>
      v.parents[c].agent in v.parents && c in v.parents[c].agent.subAgents
  }

  /** `n` was built: it is the parent of each of its sub-agents, and has it once. */
  ghost predicate IsParentOfAll(v: View, n: Agent) {
    n in v.parents && ValidateName(n.name).None? && NoRepeats(n.subAgents) &&
    forall c :: c in n.subAgents ==> c in v.live && c in v.parents && v.parents[c] == SetTo(n)
  }

  ghost predicate Forest(v: View) {
    Closed(v.parents.Keys) && LinksLeadBack(v) && forall n :: n in v.live ==> IsParentOfAll(v, n)
  }

  /** No agent is a sub-agent of two agents that were built. */
  lemma OneParent(v: View, n: Agent, m: Agent, c: Agent)
    requires Forest(v) && n in v.live && m in v.live && c in n.subAgents && c in m.subAgents
    ensures n == m
  {
    assert IsParentOfAll(v, n) && IsParentOfAll(v, m);
  }

  /** The parent that an agent reports. */
  function ParentIn(v: View, c: Agent): Option<Agent>
    requires c in v.parents
  {
    if v.parents[c].SetTo? && v.parents[c].agent in v.live then Some(v.parents[c].agent) else None
  }

  // ----- Building -----

  ghost predicate Adoptable(v: View, subAgents: seq<Agent>)
    requires forall c :: c in subAgents ==> c in v.parents
  {
    NoRepeats(subAgents) && forall c :: c in subAgents ==> v.parents[c].Unset?
  }

  /** The view once `agent` has been made, has adopted `adopted`, and exists if `live`. */
  ghost function Adopt(v: View, agent: Agent, adopted: seq<Agent>, live: bool): View {
    View((map c | c in v.parents :: if c in adopted then SetTo(agent) else v.parents[c])[agent := Unset],
         if live then v.live + {agent} else v.live)
  }

  /** A build keeps the forest, whether it succeeds or stops on the way. */
  lemma AdoptKeeps(v: View, agent: Agent, adopted: seq<Agent>, live: bool)
    requires Forest(v) && agent !in v.parents
    requires forall c :: c in agent.subAgents ==> c in v.live && c in v.parents && c.height < agent.height
    requires (forall c :: c in adopted ==> c in agent.subAgents) && Adoptable(v, adopted)
    requires live ==> ValidateName(agent.name).None? && adopted == agent.subAgents
    ensures Forest(Adopt(v, agent, adopted, live))
  {
    hide ValidateName, NoRepeats;
    var v' := Adopt(v, agent, adopted, live);
    AdoptParents(v, agent, adopted, live);
    hide IsParentOfAll;
  }

  lemma AdoptParents(v: View, agent: Agent, adopted: seq<Agent>, live: bool)
    requires agent !in v.parents && forall n :: n in v.live ==> IsParentOfAll(v, n)
    requires forall c :: c in agent.subAgents ==> c in v.live && c in v.parents
    requires (forall c :: c in adopted ==> c in agent.subAgents) && Adoptable(v, adopted)
    requires live ==> ValidateName(agent.name).None? && adopted == agent.subAgents
    ensures var v' := Adopt(v, agent, adopted, live); forall n :: n in v'.live ==> IsParentOfAll(v', n)
  {
    hide ValidateName, NoRepeats;
    var v' := Adopt(v, agent, adopted, live);
    forall n | n in v.live ensures IsParentOfAll(v', n) {
      assert IsParentOfAll(v, n);
    }
  }

  /** The sub-agents that a failed build had adopted report no parent, and no later build can adopt them. */
  lemma Orphans(v: View, agent: Agent, adopted: seq<Agent>, c: Agent)
    requires Forest(v) && agent !in v.parents && c in adopted && c in v.parents
    ensures var v' := Adopt(v, agent, adopted, false);
            ParentIn(v', c) == None && v'.parents[c].SetTo?
  {
    assert forall n :: n in v.live ==> IsParentOfAll(v, n);
  }

  /** Sets the parents of an agent's sub-agents, up to the first that has one already. */
  method AdoptAll(agent: Agent, ghost all: set<Agent>) returns (done: nat)
    requires agent !in all && agent.live && agent.parent == Unset && forall c :: c in agent.subAgents ==> c in all
    modifies agent.subAgents
    ensures done <= |agent.subAgents| && Adoptable(old(ViewOf(all)), agent.subAgents[..done])
    ensures ViewOf(all + {agent}) == Adopt(old(ViewOf(all)), agent, agent.subAgents[..done], true)
    ensures agent.live
    ensures done < |agent.subAgents| ==> agent.subAgents[done].parent.SetTo?
  {
    done := 0;
    var subs := agent.subAgents;
    while done < |subs|
      invariant done <= |subs| && Adoptable(old(ViewOf(all)), subs[..done])
      invariant agent.live && agent.parent == Unset
      invariant forall c :: c in all ==>
                  c.live == old(c.live) && c.parent == if c in subs[..done] then SetTo(agent) else old(c.parent)
    {
      if subs[done].parent.SetTo? {
        return;
      }
      subs[done].parent := SetTo(agent);
      done := done + 1;
    }
  }

  /** The agent of a failed build is dropped. */
  method Abandon(agent: Agent, ghost all: set<Agent>, ghost v: View, ghost adopted: seq<Agent>)
    requires agent !in all && agent !in v.live && ViewOf(all + {agent}) == Adopt(v, agent, adopted, true)
    modifies agent`live
    ensures ViewOf(all + {agent}) == Adopt(v, agent, adopted, false)
  {
    agent.live := false;
    assert (set c | c in all + {agent} && c.live) == v.live;
  }

  /** What stopped the adoption: a sub-agent that had a parent, or one that was there before. */
  lemma StoppedAt(v: View, agent: Agent, done: nat)
    requires done < |agent.subAgents| && forall c :: c in agent.subAgents ==> c in v.parents
    requires agent.subAgents[done] in agent.subAgents[..done] || v.parents[agent.subAgents[done]].SetTo?
    ensures !Adoptable(v, agent.subAgents[..done + 1]) && !Adoptable(v, agent.subAgents)
  {
    var subs, sub := agent.subAgents, agent.subAgents[done];
    assert subs[..done + 1][done] == sub;
    if sub in subs[..done] {
      var j :| 0 <= j < done && subs[j] == sub;
      assert subs[..done + 1][j] == sub;
    }
  }

  /** The parent that the sub-agent at which a build stops reports at that moment. */
  lemma CurrentParent(v: View, agent: Agent, all: set<Agent>, done: nat)
    requires Forest(v) && v.parents.Keys == all && agent !in all && agent !in v.live && agent.live
    requires done < |agent.subAgents| && agent.subAgents[done] in all
    requires ViewOf(all + {agent}) == Adopt(v, agent, agent.subAgents[..done], true)
    requires agent.subAgents[done].parent.SetTo?
    ensures var sub := agent.subAgents[done];
            if sub in agent.subAgents[..done] then sub.ParentAgent() == Some(agent)
            else v.parents[sub].SetTo? && sub.ParentAgent() == ParentIn(v, sub)
  {
    hide ValidateName;
    var sub := agent.subAgents[done];
    var now := ViewOf(all + {agent});
    assert now.parents[sub] == sub.parent;
    if sub !in agent.subAgents[..done] {
      assert sub.parent == v.parents[sub];
      var p := sub.parent.agent;
      assert p in all;
      assert p.live <==> p in now.live;
    }
  }

  /**
   * `build`: sets the parent of each sub-agent in turn.  It succeeds exactly if the name is valid and
   * the sub-agents are different agents without a parent.  If it stops at a sub-agent, the ones before
   * it keep a link to the agent that was not built.
   */
  method Build(name: string, description: string, subAgents: seq<Agent>, ghost all: set<Agent>)
    returns (r: Result<Agent, BuildError>, ghost made: Option<Agent>, ghost done: nat)
    requires Forest(ViewOf(all)) && forall c :: c in subAgents ==> c in all && c.live
    modifies subAgents
    ensures r.Ok? <==> ValidateName(name).None? && Adoptable(old(ViewOf(all)), subAgents)
    ensures made.None? <==> ValidateName(name).Some?
    ensures made.None? ==> r == Err(ValidateName(name).value) && ViewOf(all) == old(ViewOf(all))
    ensures made.Some? ==>
              fresh(made.value) && made.value.name == name && made.value.description == description &&
              made.value.subAgents == subAgents && done <= |subAgents|
    ensures made.Some? ==>
              ViewOf(all + {made.value}) == Adopt(old(ViewOf(all)), made.value, subAgents[..done], r.Ok?) &&
              Forest(ViewOf(all + {made.value}))
    ensures r.Ok? ==> made == Some(r.value) && done == |subAgents|
    ensures r.Err? && made.Some? ==>
              var v := old(ViewOf(all));
              done < |subAgents| && Adoptable(v, subAgents[..done]) && !Adoptable(v, subAgents[..done + 1]) &&
              r == Err(AlreadyHasParent(subAgents[done].name,
                (if subAgents[done] in subAgents[..done] then name
                 else if ParentIn(v, subAgents[done]).Some? then ParentIn(v, subAgents[done]).value.name
                 else ""), name))
  {
    ghost var v := ViewOf(all);
    hide Forest, Adoptable, ValidateName, IsIdentifier, NoRepeats, Above, Adopt;
    var invalid := ValidateName(name);
    if invalid.Some? {
      return Err(invalid.value), None, 0;
    }
    var agent := new Agent(name, description, subAgents);
    assert ViewOf(all) == v;
    var count := AdoptAll(agent, all);
    made, done := Some(agent), count;
    if count == |subAgents| {
      assert subAgents[..count] == subAgents;
      AdoptKeeps(v, agent, subAgents, true);
      return Ok(agent), made, done;
    }
    CurrentParent(v, agent, all, count);
    StoppedAt(v, agent, count);
    var current := subAgents[count].ParentAgent();
    r := Err(AlreadyHasParent(subAgents[count].name, if current.Some? then current.value.name else "", name));
    Abandon(agent, all, v, subAgents[..count]);
    AdoptKeeps(v, agent, subAgents[..count], false);
  }

  /** A build of sub-agents given by their places among the agents built so far; places not taken yet are skipped. */
  datatype BuildCall = BuildCall(name: string, description: string, subAgents: seq<nat>)

  type BuildResult = Result<Agent, BuildError>

  function Picked(built: seq<Agent>, places: seq<nat>): (r: seq<Agent>)
    ensures forall c :: c in r ==> c in built
  {
    if places == [] then []
    else (if places[0] < |built| then [built[places[0]]] else []) + Picked(built, places[1..])
  }

  /** The agents that were built, in order. */
  function Successes(results: seq<BuildResult>): seq<Agent> {
    if results == [] then []
    else
      var r := results[|results| - 1];
      Successes(results[..|results| - 1]) + if r.Ok? then [r.value] else []
  }

  /** `agent` is new, and was made for `call` out of `subs`. */
  ghost predicate MadeFor(v: View, agent: Agent, call: BuildCall, subs: seq<Agent>) {
    agent !in v.parents && agent.name == call.name && agent.description == call.description && agent.subAgents == subs
  }

  /**
   * What one build does to the links: it succeeds exactly for a valid name and distinct sub-agents
   * without a parent, and then adopts them all; an invalid name changes nothing; otherwise the
   * sub-agents before the first that cannot be adopted are lost to an agent that does not exist.
   */
  ghost predicate BuildStep(v: View, call: BuildCall, built: seq<Agent>, r: BuildResult, v': View) {
    var subs := Picked(built, call.subAgents);
    (forall c :: c in subs ==> c in v.parents) &&
    (r.Ok? <==> ValidateName(call.name).None? && Adoptable(v, subs)) &&
    if r.Ok? then MadeFor(v, r.value, call, subs) && v' == Adopt(v, r.value, subs, true)
    else if ValidateName(call.name).Some? then r.error == ValidateName(call.name).value && v' == v
    else
      exists agent, done: nat :: agent in v'.parents && MadeFor(v, agent, call, subs) && StopsAt(v, call, subs, done, r) &&
        v' == Adopt(v, agent, subs[..done], false)
  }

  /** Where a build stops, and the error that names the sub-agent and the parent it reports at that moment. */
  ghost predicate StopsAt(v: View, call: BuildCall, subs: seq<Agent>, done: nat, r: BuildResult)
    requires forall c :: c in subs ==> c in v.parents
  {
    done < |subs| && Adoptable(v, subs[..done]) && !Adoptable(v, subs[..done + 1]) &&
    r == Err(AlreadyHasParent(subs[done].name,
      (if subs[done] in subs[..done] then call.name
       else if ParentIn(v, subs[done]).Some? then ParentIn(v, subs[done]).value.name
       else ""), call.name))
  }

  /** The calls were made one after the other, from nothing; `states` are the links before each and at the end. */
  ghost predicate BuildRun(calls: seq<BuildCall>, results: seq<BuildResult>, states: seq<View>) {
    |results| == |calls| && |states| == |calls| + 1 && states[0] == View(map[], {}) &&
    forall k :: 0 <= k < |calls| ==>
      BuildStep(states[k], calls[k], Successes(results[..k]), results[k], states[k + 1])
  }

  lemma BuildRunExtends(calls: seq<BuildCall>, results: seq<BuildResult>, states: seq<View>,
                        call: BuildCall, r: BuildResult, v: View)
    requires BuildRun(calls, results, states)
    requires BuildStep(states[|calls|], call, Successes(results), r, v)
    ensures BuildRun(calls + [call], results + [r], states + [v])
    ensures Successes(results + [r]) == Successes(results) + if r.Ok? then [r.value] else []
  {
    hide BuildStep, Successes;
    var calls', results', states' := calls + [call], results + [r], states + [v];
    assert results'[..|results|] == results;
    forall k | 0 <= k < |calls'|
      ensures BuildStep(states'[k], calls'[k], Successes(results'[..k]), results'[k], states'[k + 1])
    {
      assert k < |calls| ==> results'[..k] == results[..k];
    }
    SuccessesExtend(results, r);
  }

  lemma SuccessesExtend(results: seq<BuildResult>, r: BuildResult)
    ensures Successes(results + [r]) == Successes(results) + if r.Ok? then [r.value] else []
  {
    assert (results + [r])[..|results|] == results;
  }

  /**
   * Over any run: a link, once set, never changes; an agent that was built stays, and one whose build
   * failed never comes to exist, so that the sub-agents it had adopted are lost for good.
   */
  lemma {:induction false} LinksStay(calls: seq<BuildCall>, results: seq<BuildResult>, states: seq<View>, j: nat, k: nat)
    requires BuildRun(calls, results, states) && j <= k < |states|
    ensures states[j].live <= states[k].live && states[j].parents.Keys <= states[k].parents.Keys
    ensures forall c :: c in states[j].parents && c !in states[j].live ==> c !in states[k].live
    ensures forall c :: c in states[j].parents && states[j].parents[c].SetTo? ==>
              states[k].parents[c] == states[j].parents[c]
    decreases k - j
  {
    if j < k {
      LinksStay(calls, results, states, j, k - 1);
      StepKeepsLinks(states[k - 1], calls[k - 1], Successes(results[..k - 1]), results[k - 1], states[k]);
    }
  }

  lemma StepKeepsLinks(v: View, call: BuildCall, built: seq<Agent>, r: BuildResult, v': View)
    requires BuildStep(v, call, built, r, v')
    ensures v.live <= v'.live && v.parents.Keys <= v'.parents.Keys
    ensures forall c :: c in v.parents && c !in v.live ==> c !in v'.live
    ensures forall c :: c in v.parents && v.parents[c].SetTo? ==> v'.parents[c] == v.parents[c]
  {
    hide ValidateName;
    var subs := Picked(built, call.subAgents);
    if r.Ok? {
      assert v' == Adopt(v, r.value, subs, true);
    } else if ValidateName(call.name).None? {
      var agent, done: nat :| agent in v'.parents && MadeFor(v, agent, call, subs) && StopsAt(v, call, subs, done, r) &&
                              v' == Adopt(v, agent, subs[..done], false);
      assert Adoptable(v, subs[..done]);
    }
  }

  ghost predicate AllBuilt(all: set<Agent>, built: seq<Agent>)
    reads all
  {
    forall a :: a in built ==> a in all && a.live
  }

  /**
   * Any sequence of builds, failed ones included: each has the result it should in the state the ones
   * before it left, and the forest is kept, with what `OneParent` says of it.
   */
  method BuildAll(calls: seq<BuildCall>)
    returns (built: seq<Agent>, results: seq<BuildResult>, ghost all: set<Agent>, ghost states: seq<View>)
    ensures BuildRun(calls, results, states) && states[|calls|] == ViewOf(all)
    ensures built == Successes(results) && AllBuilt(all, built)
    ensures Forest(ViewOf(all)) && fresh(all)
  {
    hide BuildRun, BuildStep, Forest, Picked, Successes;
    built, results, all := [], [], {};
    states := [View(map[], {})];
    NoBuilds(all);
    for i := 0 to |calls|
      invariant BuildRun(calls[..i], results, states) && |states| == i + 1 && states[i] == ViewOf(all)
      invariant built == Successes(results) && Forest(ViewOf(all)) && fresh(all) && AllBuilt(all, built)
    {
      var r;
      assert forall k :: 0 <= k < |built| ==> built[k] in all;
      r, all := BuildNext(calls[i], built, all);
      BuildRunExtends(calls[..i], results, states, calls[i], r, ViewOf(all));
      assert calls[..i] + [calls[i]] == calls[..i + 1];
      states := states + [ViewOf(all)];
      results := results + [r];
      if r.Ok? {
        built := built + [r.value];
      }
    }
    assert calls[..|calls|] == calls;
  }

  lemma NoBuilds(all: set<Agent>)
    requires all == {}
    ensures ViewOf(all) == View(map[], {}) && Forest(ViewOf(all))
    ensures BuildRun([], [], [View(map[], {})]) && Successes([]) == []
  {
  }

  /** One build of the sequence: what was built stays built. */
  method BuildNext(call: BuildCall, built: seq<Agent>, ghost all: set<Agent>)
    returns (r: BuildResult, ghost all': set<Agent>)
    requires Forest(ViewOf(all)) && AllBuilt(all, built)
    modifies built
    ensures Forest(ViewOf(all')) && fresh(all' - all) && AllBuilt(all', built)
    ensures BuildStep(old(ViewOf(all)), call, built, r, ViewOf(all'))
    ensures r.Ok? ==> r.value in all' && r.value.live
  {
    ghost var v := ViewOf(all);
    hide Forest, Picked, ValidateName, Adoptable, Adopt, ParentIn;
    var subAgents := Picked(built, call.subAgents);
    assert forall k :: 0 <= k < |subAgents| ==> subAgents[k] in built;
    ghost var made, done;
    r, made, done := Build(call.name, call.description, subAgents, all);
    all' := if made.Some? then all + {made.value} else all;
    ghost var now := ViewOf(all');
    if made.Some? {
      AdoptGrows(v, made.value, subAgents[..done], r.Ok?);
      assert MadeFor(v, made.value, call, subAgents);
      if r.Ok? {
        assert subAgents[..done] == subAgents;
      } else {
        assert StopsAt(v, call, subAgents, done, r) && now == Adopt(v, made.value, subAgents[..done], false);
      }
    }
    assert forall c :: c in all ==> c in v.live ==> c in now.live;
    assert forall c :: c in now.live ==> c.live;
  }

  lemma AdoptGrows(v: View, agent: Agent, adopted: seq<Agent>, live: bool)
    ensures var v' := Adopt(v, agent, adopted, live);
            v.live <= v'.live && (live ==> agent in v'.live) && agent in v'.parents
  {
  }

  // ----- Walking up and down -----

  /** `x` is `r` or one of its descendants. */
  ghost predicate Under(r: Agent, x: Agent)
    decreases r.height
  {
    x == r || exists c :: c in r.subAgents && c.height < r.height && Under(c, x)
  }

  /** `find_agent`: this agent first, then its descendants in order; the first match wins. */
  function FindAgent(n: Agent, name: string, ghost all: set<Agent>): Option<Agent>
    requires Closed(all) && n in all
    decreases n.height, 1, 0
  {
    if n.name == name then Some(n) else FindAmong(n.subAgents, name, all, n.height)
  }

  /** `find_sub_agent`. */
  function FindAmong(subs: seq<Agent>, name: string, ghost all: set<Agent>, ghost bound: nat): Option<Agent>
    requires Closed(all) && forall c :: c in subs ==> c in all && c.height < bound
    decreases bound, 0, |subs|
  {
    if subs == [] then None
    else
      var found := FindAgent(subs[0], name, all);
      if found.Some? then found else FindAmong(subs[1..], name, all, bound)
  }

  /** The tree below an agent, as a value. */
  ghost function Shape(n: Agent, all: set<Agent>): Agents.Agent
    requires Closed(all) && n in all
    decreases n.height, 1, 0
  {
    Agents.Agent(n.name, Shapes(n.subAgents, all, n.height))
  }

  ghost function Shapes(subs: seq<Agent>, all: set<Agent>, bound: nat): seq<Agents.Agent>
    requires Closed(all) && forall c :: c in subs ==> c in all && c.height < bound
    decreases bound, 0, |subs|
  {
    if subs == [] then [] else [Shape(subs[0], all)] + Shapes(subs[1..], all, bound)
  }

  /** Looking a name up on the heap is looking it up in the value the tree stands for. */
  lemma {:induction false} FindsInShape(n: Agent, name: string, all: set<Agent>)
    requires Closed(all) && n in all
    ensures match FindAgent(n, name, all)
            case Some(y) => y in all && Agents.FindAgent(Shape(n, all), name) == Some(Shape(y, all))
            case None => Agents.FindAgent(Shape(n, all), name) == None
    decreases n.height, 1, 0
  {
    FindsInShapes(n.subAgents, name, all, n.height);
  }

  lemma {:induction false} FindsInShapes(subs: seq<Agent>, name: string, all: set<Agent>, bound: nat)
    requires Closed(all) && forall c :: c in subs ==> c in all && c.height < bound
    ensures match FindAmong(subs, name, all, bound)
            case Some(y) => y in all && Agents.FindAmong(Shapes(subs, all, bound), name) == Some(Shape(y, all))
            case None => Agents.FindAmong(Shapes(subs, all, bound), name) == None
    decreases bound, 0, |subs|
  {
    if subs != [] {
      FindsInShape(subs[0], name, all);
      FindsInShapes(subs[1..], name, all, bound);
      var shapes := Shapes(subs, all, bound);
      assert shapes[0] == Shape(subs[0], all) && shapes[1..] == Shapes(subs[1..], all, bound);
    }
  }

  /** What is found is below and has the name; if nothing is, nothing below has it. */
  ghost predicate FindsAmong(subs: seq<Agent>, name: string, found: Option<Agent>) {
    match found
    case Some(y) => y.name == name && exists c :: c in subs && Under(c, y)
    case None => forall c :: c in subs ==> HasNone(c, name)
  }

  ghost predicate HasNone(r: Agent, name: string)
    decreases r.height
  {
    r.name != name && forall c :: c in r.subAgents && c.height < r.height ==> HasNone(c, name)
  }

  lemma {:induction false} FindRight(n: Agent, name: string, all: set<Agent>)
    requires Closed(all) && n in all
    ensures match FindAgent(n, name, all)
            case Some(y) => y.name == name && Under(n, y)
            case None => HasNone(n, name)
    decreases n.height, 1, 0
  {
    FindAmongRight(n.subAgents, name, all, n.height);
  }

  lemma {:induction false} FindAmongRight(subs: seq<Agent>, name: string, all: set<Agent>, bound: nat)
    requires Closed(all) && forall c :: c in subs ==> c in all && c.height < bound
    ensures FindsAmong(subs, name, FindAmong(subs, name, all, bound))
    decreases bound, 0, |subs|
  {
    if subs != [] {
      FindRight(subs[0], name, all);
      FindAmongRight(subs[1..], name, all, bound);
      assert subs[0] in subs && forall c :: c in subs[1..] ==> c in subs;
      assert forall c :: c in subs ==> c == subs[0] || c in subs[1..];
    }
  }

  lemma {:induction false} HasNoneUnder(r: Agent, name: string, x: Agent)
    requires HasNone(r, name) && Under(r, x)
    ensures x.name != name
    decreases r.height
  {
    if x != r {
      var c :| c in r.subAgents && c.height < r.height && Under(c, x);
      HasNoneUnder(c, name, x);
    }
  }

  /** No other agent below `r` has the name of `x`. */
  ghost predicate OnlyOneNamed(all: set<Agent>, r: Agent, x: Agent) {
    forall y :: y in all && Under(r, y) && y.name == x.name ==> y == x
  }

  lemma {:induction false} UnderStays(all: set<Agent>, r: Agent, x: Agent)
    requires Closed(all) && r in all && Under(r, x)
    ensures x in all
    decreases r.height
  {
    if x != r {
      var c :| c in r.subAgents && c.height < r.height && Under(c, x);
      UnderStays(all, c, x);
    }
  }

  /** An agent whose name is unique below `r` is what looking that name up from `r` finds. */
  lemma FindsUnique(all: set<Agent>, r: Agent, x: Agent)
    requires Closed(all) && r in all && Under(r, x)
    ensures OnlyOneNamed(all, r, x) ==> FindAgent(r, x.name, all) == Some(x)
  {
    FindRight(r, x.name, all);
    match FindAgent(r, x.name, all) {
      case Some(y) => UnderStays(all, r, y);
      case None => HasNoneUnder(r, x.name, x);
    }
  }

  ghost function Higher(all: set<Agent>, n: Agent): set<Agent> {
    set m | m in all && m.height > n.height
  }

  lemma ParentOf(v: View, c: Agent)
    requires Forest(v) && c in v.parents && ParentIn(v, c).Some?
    ensures var p := ParentIn(v, c).value;
            p in v.parents && Under(p, c) && c in p.subAgents && c.height < p.height &&
            |Higher(v.parents.Keys, p)| < |Higher(v.parents.Keys, c)|
  {
    var p := ParentIn(v, c).value;
    assert Under(c, c);
    StrictlyFewer(Higher(v.parents.Keys, p), Higher(v.parents.Keys, c)) by {
      assert p in Higher(v.parents.Keys, c);
    }
  }

  lemma {:induction false} UnderTrans(p: Agent, c: Agent, x: Agent)
    requires c in p.subAgents && c.height < p.height && Under(c, x)
    ensures Under(p, x)
  {
  }

  /**
   * `root_agent`: climbs to an agent that reports no parent.  The climb ends; the agent it began at is
   * below the root, and is found from there by its name if no other agent below the root shares it.
   */
  method RootAgent(x: Agent, ghost all: set<Agent>) returns (root: Agent)
    requires Forest(ViewOf(all)) && x in all
    ensures root in all && ParentIn(ViewOf(all), root) == None && Under(root, x)
    ensures Closed(all) && (OnlyOneNamed(all, root, x) ==> FindAgent(root, x.name, all) == Some(x))
  {
    ghost var v := ViewOf(all);
    root := x;
    assert v.parents.Keys == all && Closed(all);
    hide Forest, FindAgent, OnlyOneNamed, Closed;
    while true
      invariant root in all && Under(root, x)
      decreases |Higher(all, root)|
    {
      var parent := root.ParentAgent();
      assert parent == ParentIn(v, root) by { ReportsParent(all, root); }
      if parent.None? {
        FindsUnique(all, root, x);
        return;
      }
      ParentOf(v, root);
      UnderTrans(parent.value, root, x);
      root := parent.value;
    }
  }

  lemma ReportsParent(all: set<Agent>, c: Agent)
    requires Forest(ViewOf(all)) && c in all
    ensures c.ParentAgent() == ParentIn(ViewOf(all), c)
  {
    var v := ViewOf(all);
    assert v.parents[c] == c.parent;
    if c.parent.SetTo? {
      assert c.parent.agent in v.parents;
    }
  }

  // ----- Cloning -----

  datatype Update = Update(name: Option<string>, description: Option<string>, subAgents: Option<seq<Agent>>, parentRequested: bool)

  const NO_UPDATE := Update(None, None, None, false)

  /** The trees have the same shape, names and descriptions. */
  ghost predicate SameShape(a: Agent, b: Agent)
    decreases a.height
  {
    a.name == b.name && a.description == b.description && SameShapes(a, b)
  }

  ghost predicate SameShapes(a: Agent, b: Agent)
    decreases a.height, 0
  {
    |a.subAgents| == |b.subAgents| &&
    forall i :: 0 <= i < |a.subAgents| ==>
      a.subAgents[i].height < a.height && SameShape(a.subAgents[i], b.subAgents[i])
  }

  /** The agents of `all'` that are not in `all` exist and have only such sub-agents. */
  ghost predicate OwnTrees(all: set<Agent>, all': set<Agent>)
    reads all'
  {
    all <= all' &&
    forall m :: m in all' && m !in all ==> m.live && forall c :: c in m.subAgents ==> c in all' && c !in all
  }

  /** Nothing below an agent of one of the new trees is an old agent. */
  lemma {:induction false} DisjointTrees(all: set<Agent>, all': set<Agent>, m: Agent, x: Agent)
    requires OwnTrees(all, all') && m in all' && m !in all && Under(m, x)
    ensures x !in all
    decreases m.height
  {
    if x != m {
      var c :| c in m.subAgents && c.height < m.height && Under(c, x);
      DisjointTrees(all, all', c, x);
    }
  }

  /** What the loop over the sub-agents has cloned so far: as many unadopted agents of the same shapes. */
  ghost predicate Cloned(n: Agent, clones: seq<Agent>, all: set<Agent>, all': set<Agent>)
    reads all'
  {
    |clones| <= |n.subAgents| && OwnTrees(all, all') && NoRepeats(clones) &&
    (forall c :: c in clones ==> c in all' && c !in all && c.parent == Unset) &&
    forall i :: 0 <= i < |clones| ==> SameShape(n.subAgents[i], clones[i])
  }

  /**
   * Clones each sub-agent of `n`.  No existing agent changes, as the missing `modifies` clause says.
   */
  method CloneSubAgents(n: Agent, ghost all: set<Agent>) returns (clones: seq<Agent>, ghost all': set<Agent>)
    requires Forest(ViewOf(all)) && n in all && n.live
    ensures Forest(ViewOf(all')) && fresh(all' - all) && Cloned(n, clones, all, all') && |clones| == |n.subAgents|
    decreases n.height, 0
  {
    clones, all' := [], all;
    hide Forest, OwnTrees, NoRepeats, SameShape, SameShapes, ViewOf, Cloned;
    NoneCloned(n, all);
    while |clones| < |n.subAgents|
      invariant Forest(ViewOf(all')) && fresh(all' - all) && Cloned(n, clones, all, all') && n in all'
      invariant |clones| <= |n.subAgents|
    {
      LiveSubAgents(all', n);
      assert n.subAgents[|clones|] in n.subAgents;
      ghost var before := all';
      var r;
      r, all' := CloneWith(n.subAgents[|clones|], NO_UPDATE, all');
      ClonedStep(n, clones, all, before, all', r.value);
      clones := clones + [r.value];
    }
  }

  lemma NoneCloned(n: Agent, all: set<Agent>)
    ensures Cloned(n, [], all, all)
  {
  }

  lemma ClonedStep(n: Agent, clones: seq<Agent>, all: set<Agent>, before: set<Agent>, all': set<Agent>, c: Agent)
    requires Cloned(n, clones, all, before) && OwnTrees(before, all') && |clones| < |n.subAgents|
    requires c in all' && c !in before && c.parent == Unset && SameShape(n.subAgents[|clones|], c)
    ensures Cloned(n, clones + [c], all, all')
  {
    hide SameShape;
    assert c !in clones;
  }

  lemma LiveSubAgents(all: set<Agent>, n: Agent)
    requires Forest(ViewOf(all)) && n in all && n.live
    ensures ValidateName(n.name).None?
    ensures forall c :: c in n.subAgents ==> c in all && c.live && c.height < n.height
  {
    var v := ViewOf(all);
    assert n in v.live && IsParentOfAll(v, n);
    assert n in v.parents.Keys;
  }

  /**
   * `clone_with`.  The parent cannot be updated.  Without an update of the sub-agents they are cloned
   * too; then only an invalid new name can fail, and a clone without any update always succeeds.
   */
  method CloneWith(n: Agent, update: Update, ghost all: set<Agent>)
    returns (r: Result<Agent, BuildError>, ghost all': set<Agent>)
    requires Forest(ViewOf(all)) && n in all && n.live
    requires update.subAgents.Some? ==> forall c :: c in update.subAgents.value ==> c in all && c.live
    modifies if update.subAgents.Some? then update.subAgents.value else []
    ensures Forest(ViewOf(all')) && all <= all' && fresh(all' - all)
    ensures update.parentRequested ==> r == Err(ParentAgentInClone) && all' == all && ViewOf(all) == old(ViewOf(all))
    ensures !update.parentRequested ==>
              var name := if update.name.Some? then update.name.value else n.name;
              (r.Ok? <==> ValidateName(name).None? &&
                          (update.subAgents.Some? ==> Adoptable(old(ViewOf(all)), update.subAgents.value))) &&
              (r.Ok? ==>
                 r.value in all' && r.value !in all && r.value.live && r.value.parent == Unset && r.value.name == name &&
                 r.value.description == (if update.description.Some? then update.description.value else n.description) &&
                 if update.subAgents.Some? then r.value.subAgents == update.subAgents.value
                 else SameShapes(n, r.value) && OwnTrees(all, all'))
    ensures update == NO_UPDATE ==> r.Ok? && SameShape(n, r.value)
    decreases n.height, 1
  {
    all' := all;
    LiveSubAgents(all, n);
    if update.parentRequested {
      return Err(ParentAgentInClone), all;
    }
    var name := if update.name.Some? then update.name.value else n.name;
    var description := if update.description.Some? then update.description.value else n.description;
    var subAgents;
    if update.subAgents.Some? {
      subAgents := update.subAgents.value;
    } else {
      subAgents, all' := CloneSubAgents(n, all);
    }
    ghost var made, done;
    r, made, done := Build(name, description, subAgents, all');
    if made.Some? {
      all' := all' + {made.value};
    }
  }
}
