/** The lock-free protocol by which concurrent saves of one artifact pick their version numbers. */
module ReservationProtocol {
  import opened Wrappers

  // A save makes `.v.pending`, checks that `v` is still unused, fills the directory, and renames it to `v`.

  /** A version directory: who made it, and which of its two files it holds. */
  datatype Dir = Dir(owner: nat, payload: bool, metadata: bool)

  /** The children of an artifact's `versions` directory. */
  datatype Entries = Entries(published: map<nat, Dir>, pending: map<nat, Dir>)

  /** Where a save stands; `Holding` has made its staging directory and not yet checked. */
  datatype Stage =
    | Idle
    | Listing
    | Seeking
    | Holding
    | Backing
    | Checked
    | Written
    | Described
    | Done
    | Failed
    | Crashed

  /** A save in progress: its stage, the version it is at, and the versions published when it began. */
  datatype Saver = Saver(stage: Stage, version: nat, floor: set<nat>)

  /** One successful rename, and whether its target existed. */
  datatype Publish = Publish(saver: nat, version: nat, overwrote: bool)

  datatype State = State(entries: Entries, savers: map<nat, Saver>, log: seq<Publish>)

  const NEW_SAVER := Saver(Idle, 0, {})

  function SaverOf(s: State, p: nat): Saver {
    if p in s.savers then s.savers[p] else NEW_SAVER
  }

  /** One more than the greatest version seen, or zero. */
  ghost predicate IsNext(seen: set<nat>, v: nat) {
    (forall w :: w in seen ==> w < v) && (v > 0 ==> v - 1 in seen)
  }

  /**
   * One step of one save.  Listing is not atomic: it sees every version published before it began
   * and any of those published since.  An error removes the staging directory or fails to.
   */
  datatype Action =
    | Begin(p: nat)
    | List(p: nat, seen: set<nat>, next: nat)
    | Mkdir(p: nat)
    | Check(p: nat)
    | Unstage(p: nat)
    | WritePayload(p: nat)
    | WriteMetadata(p: nat)
    | Rename(p: nat)
    | Fail(p: nat, left: Option<Dir>)
    | Crash(p: nat)

  predicate Stages(s: Stage) {
    s.Holding? || s.Backing? || s.Checked? || s.Written? || s.Described?
  }

  /** The staging directory of the version a save is at is there to be worked on. */
  predicate StageThere(s: State, p: nat) {
    SaverOf(s, p).version in s.entries.pending
  }

  ghost predicate Enabled(s: State, a: Action) {
    var me := SaverOf(s, a.p);
    match a
    case Begin(_) => me.stage.Idle?
    case List(_, seen, next) =>
      me.stage.Listing? && me.floor <= seen <= s.entries.published.Keys && IsNext(seen, next)
    case Mkdir(_) => me.stage.Seeking?
    case Check(_) => me.stage.Holding?
    case Unstage(p) => me.stage.Backing? && StageThere(s, p)
    case WritePayload(p) => me.stage.Checked? && StageThere(s, p)
    case WriteMetadata(p) => me.stage.Written? && StageThere(s, p)
    case Rename(p) => me.stage.Described? && StageThere(s, p)
    case Fail(p, left) =>
      me.stage.Listing? || me.stage.Seeking? || (Stages(me.stage) && (left.Some? ==> left.value.owner == p))
    case Crash(_) => !me.stage.Idle? && !me.stage.Done? && !me.stage.Failed?
  }

  function Advance(s: State, p: nat, me: Saver, entries: Entries): State {
    s.(entries := entries, savers := s.savers[p := me])
  }

  /** What the entries become when the directory staged for `v` is `dir`. */
  function Restage(e: Entries, v: nat, dir: Option<Dir>): Entries {
    e.(pending := if dir.Some? then e.pending[v := dir.value] else e.pending - {v})
  }

  function Next(s: State, a: Action): State
    requires Enabled(s, a)
  {
    var p, me, e := a.p, SaverOf(s, a.p), s.entries;
    var v := me.version;
    match a
    case Begin(_) => Advance(s, p, Saver(Listing, 0, e.published.Keys), e)
    case List(_, _, next) => Advance(s, p, me.(stage := Seeking, version := next), e)
    case Mkdir(_) =>
      if v in e.pending then Advance(s, p, me.(version := v + 1), e)
      else Advance(s, p, me.(stage := Holding), Restage(e, v, Some(Dir(p, false, false))))
    case Check(_) => Advance(s, p, me.(stage := if v in e.published then Backing else Checked), e)
    case Unstage(_) => Advance(s, p, me.(stage := Seeking, version := v + 1), Restage(e, v, None))
    case WritePayload(_) =>
      Advance(s, p, me.(stage := Written), Restage(e, v, Some(e.pending[v].(payload := true))))
    case WriteMetadata(_) =>
      Advance(s, p, me.(stage := Described), Restage(e, v, Some(e.pending[v].(metadata := true))))
    case Rename(_) =>
      var e' := Restage(e.(published := e.published[v := e.pending[v]]), v, None);
      Advance(s, p, me.(stage := Done), e').(log := s.log + [Publish(p, v, v in e.published)])
    case Fail(_, left) =>
      Advance(s, p, me.(stage := Failed), if Stages(me.stage) then Restage(e, v, left) else e)
    case Crash(_) => Advance(s, p, me.(stage := Crashed), e)
  }

  // ----- The invariant -----

  /** A save that stages a version owns its staging directory, and fills it in order. */
  ghost predicate OwnsStage(s: State, p: nat) {
    var me := SaverOf(s, p);
    Stages(me.stage) ==>
      me.version in s.entries.pending &&
      var dir := s.entries.pending[me.version];
      dir.owner == p &&
      (me.stage.Backing? ==> me.version in s.entries.published) &&
      (me.stage.Checked? || me.stage.Written? || me.stage.Described? ==> me.version !in s.entries.published) &&
      (me.stage.Written? || me.stage.Described? ==> dir.payload) &&
      (me.stage.Described? ==> dir.metadata)
  }

  /** A staging directory belongs to a save that is at work on it, or to one that failed or crashed. */
  ghost predicate PendingOwned(s: State) {
    forall v :: v in s.entries.pending ==>
      var owner := SaverOf(s, s.entries.pending[v].owner);
      owner.stage.Failed? || owner.stage.Crashed? || (Stages(owner.stage) && owner.version == v)
  }

  /** A save only ever considers versions above all that were published when it began. */
  ghost predicate AboveFloor(s: State, p: nat) {
    var me := SaverOf(s, p);
    !me.stage.Idle? ==>
      me.floor <= s.entries.published.Keys &&
      (me.stage.Seeking? || Stages(me.stage) || me.stage.Done? ==> forall w :: w in me.floor ==> w < me.version)
  }

  /** Every published directory is complete and was published by the save that made it. */
  ghost predicate PublishedComplete(s: State) {
    forall v :: v in s.entries.published ==>
      var dir := s.entries.published[v];
      dir.payload && dir.metadata &&
      SaverOf(s, dir.owner).stage.Done? && SaverOf(s, dir.owner).version == v
  }

  /** The log lists each published version once, and no rename landed on an existing version. */
  ghost predicate LogFaithful(s: State) {
    Lists(s.log, s.entries.published)
  }

  ghost predicate Lists(log: seq<Publish>, published: map<nat, Dir>) {
    (forall k :: 0 <= k < |log| ==>
       !log[k].overwrote && log[k].version in published && published[log[k].version].owner == log[k].saver) &&
    (forall j, k :: 0 <= j < k < |log| ==> log[j].version != log[k].version) &&
    (forall v :: v in published ==> exists k :: 0 <= k < |log| && log[k].version == v)
  }

  ghost predicate Inv(s: State) {
    (forall p :: OwnsStage(s, p)) && (forall p :: AboveFloor(s, p)) && PendingOwned(s) &&
    PublishedComplete(s) && LogFaithful(s)
  }

  const START := State(Entries(map[], map[]), map[], [])

  /** The state after any interleaving of any saves' steps, if each is enabled when it is taken. */
  ghost function RunOf(actions: seq<Action>): Option<State> {
    if actions == [] then Some(START)
    else
      var r := RunOf(actions[..|actions| - 1]);
      var a := actions[|actions| - 1];
      if r.Some? && Enabled(r.value, a) then Some(Next(r.value, a)) else None
  }

  /** A step of one save leaves every other save's own staging directory alone. */
  lemma StepOwns(s: State, a: Action, q: nat)
    requires OwnsStage(s, a.p) && OwnsStage(s, q) && Enabled(s, a)
    ensures OwnsStage(Next(s, a), q)
  {
  }

  lemma StepAboveFloor(s: State, a: Action, q: nat)
    requires AboveFloor(s, a.p) && AboveFloor(s, q) && Enabled(s, a)
    ensures AboveFloor(Next(s, a), q)
  {
  }

  lemma StepPending(s: State, a: Action)
    requires PendingOwned(s) && OwnsStage(s, a.p) && Enabled(s, a)
    ensures PendingOwned(Next(s, a))
  {
  }

  lemma StepComplete(s: State, a: Action)
    requires PublishedComplete(s) && OwnsStage(s, a.p) && Enabled(s, a)
    ensures PublishedComplete(Next(s, a))
  {
  }

  lemma StepLog(s: State, a: Action)
    requires LogFaithful(s) && OwnsStage(s, a.p) && Enabled(s, a)
    ensures LogFaithful(Next(s, a))
  {
    hide Lists;
    if a.Rename? {
      var v := SaverOf(s, a.p).version;
      ListsMore(s.log, s.entries.published, a.p, v, s.entries.pending[v]);
    }
  }

  lemma ListsMore(log: seq<Publish>, published: map<nat, Dir>, p: nat, v: nat, dir: Dir)
    requires Lists(log, published) && v !in published && dir.owner == p
    ensures Lists(log + [Publish(p, v, false)], published[v := dir])
  {
    var log', published' := log + [Publish(p, v, false)], published[v := dir];
    forall w | w in published' ensures exists k :: 0 <= k < |log'| && log'[k].version == w {
      if w == v {
        assert log'[|log|].version == w;
      } else {
        var k :| 0 <= k < |log| && log[k].version == w;
        assert log'[k] == log[k];
      }
    }
  }

  /** The invariant holds after every interleaving. */
  lemma {:induction false} RunsKeepInv(actions: seq<Action>)
    requires RunOf(actions).Some?
    ensures Inv(RunOf(actions).value)
  {
    if actions != [] {
      var s, a := RunOf(actions[..|actions| - 1]).value, actions[|actions| - 1];
      RunsKeepInv(actions[..|actions| - 1]);
      assert OwnsStage(s, a.p) && AboveFloor(s, a.p);
      hide OwnsStage, AboveFloor, PendingOwned, PublishedComplete, LogFaithful, Enabled, Next;
      forall q { StepOwns(s, a, q); }
      forall q { StepAboveFloor(s, a, q); }
      StepPending(s, a);
      StepComplete(s, a);
      StepLog(s, a);
    }
  }

  // ----- What this means -----

  /** No two saves publish the same version, no rename lands on one, and what is listed is complete. */
  lemma NoVersionTwice(actions: seq<Action>)
    requires RunOf(actions).Some?
    ensures var s := RunOf(actions).value;
            (forall k :: 0 <= k < |s.log| ==> !s.log[k].overwrote) &&
            (forall j, k :: 0 <= j < k < |s.log| ==> s.log[j].version != s.log[k].version) &&
            (forall v :: v in s.entries.published ==>
               s.entries.published[v].payload && s.entries.published[v].metadata)
  {
    RunsKeepInv(actions);
  }

  /** Staging never gets lost: a save that stages a version finds its directory there. */
  lemma StageIsThere(actions: seq<Action>, p: nat)
    requires RunOf(actions).Some?
    ensures Stages(SaverOf(RunOf(actions).value, p).stage) ==>
              StageThere(RunOf(actions).value, p) &&
              RunOf(actions).value.entries.pending[SaverOf(RunOf(actions).value, p).version].owner == p
  {
    RunsKeepInv(actions);
    assert OwnsStage(RunOf(actions).value, p);
  }

  /** A save that begins after another has published gets a greater version. */
  lemma LaterSavesGetLaterVersions(actions: seq<Action>, p: nat, v: nat)
    requires RunOf(actions).Some?
    requires SaverOf(RunOf(actions).value, p).stage.Done? && v in SaverOf(RunOf(actions).value, p).floor
    ensures v < SaverOf(RunOf(actions).value, p).version
  {
    RunsKeepInv(actions);
    assert AboveFloor(RunOf(actions).value, p);
  }

  /** The staging directory of `v` was abandoned before `v` was published. */
  ghost predicate Abandoned(s: State, v: nat) {
    v in s.entries.pending && v !in s.entries.published &&
    var stage := SaverOf(s, s.entries.pending[v].owner).stage; stage.Crashed? || stage.Failed?
  }

  lemma StepKeepsAbandoned(s: State, a: Action, v: nat)
    requires Inv(s) && Enabled(s, a) && Abandoned(s, v)
    ensures Abandoned(Next(s, a), v)
  {
    assert OwnsStage(s, a.p);
  }

  /** An abandoned staging directory keeps its version unused for ever. */
  lemma {:induction false} AbandonedStaysUnused(actions: seq<Action>, more: seq<Action>, v: nat)
    requires RunOf(actions + more).Some? && RunOf(actions).Some? && Abandoned(RunOf(actions).value, v)
    ensures Abandoned(RunOf(actions + more).value, v)
    decreases |more|
  {
    if more == [] {
      assert actions + more == actions;
    } else {
      var all := actions + more;
      assert all[..|all| - 1] == actions + more[..|more| - 1];
      AbandonedStaysUnused(actions, more[..|more| - 1], v);
      RunsKeepInv(all[..|all| - 1]);
      StepKeepsAbandoned(RunOf(all[..|all| - 1]).value, all[|all| - 1], v);
    }
  }

  /** What is published stays as it was published. */
  lemma StepKeepsPublished(s: State, a: Action, v: nat)
    requires Inv(s) && Enabled(s, a) && v in s.entries.published
    ensures v in Next(s, a).entries.published && Next(s, a).entries.published[v] == s.entries.published[v]
  {
    assert OwnsStage(s, a.p);
  }

  // ----- The search for a free version -----

  /** The versions that a search starting at `v` may have to skip. */
  ghost function Taken(e: Entries, v: nat): set<nat> {
    set w | w in e.pending.Keys + e.published.Keys && w >= v
  }

  /**
   * A retry moves on to the next version, and only because another save stages the one it leaves, or
   * left it staged, or has published it.
   */
  lemma RetriesMoveOn(s: State, a: Action)
    requires Inv(s) && Enabled(s, a)
    ensures var v, me' := SaverOf(s, a.p).version, SaverOf(Next(s, a), a.p);
            (a.Mkdir? && v in s.entries.pending ==>
               me'.stage.Seeking? && me'.version == v + 1 && s.entries.pending[v].owner != a.p) &&
            (a.Unstage? ==>
               me'.stage.Seeking? && me'.version == v + 1 &&
               v in s.entries.published && s.entries.published[v].owner != a.p)
  {
    assert OwnsStage(s, a.p);
  }

  /** A search that moves on has fewer versions to skip. */
  lemma FewerTaken(e: Entries, v: nat)
    requires v in e.pending || v in e.published
    ensures |Taken(e, v + 1)| < |Taken(e, v)|
  {
    assert Taken(e, v) == Taken(e, v + 1) + {v};
  }

  // ----- How often a save retries -----

  predicate Retries(s: State, a: Action) {
    (a.Mkdir? && StageThere(s, a.p)) || a.Unstage?
  }

  ghost function Before(actions: seq<Action>): Option<State>
    requires actions != []
  {
    RunOf(actions[..|actions| - 1])
  }

  /** The retries of `p` in a run. */
  ghost function RetriesOf(actions: seq<Action>, p: nat): nat {
    if actions == [] then 0
    else
      var a := actions[|actions| - 1];
      RetriesOf(actions[..|actions| - 1], p) +
      if a.p == p && Before(actions).Some? && Retries(Before(actions).value, a) then 1 else 0
  }

  /** The version that `p` tried first. */
  function FirstTry(actions: seq<Action>, p: nat): nat {
    if actions == [] then 0
    else
      var a := actions[|actions| - 1];
      if a.List? && a.p == p then a.next else FirstTry(actions[..|actions| - 1], p)
  }

  /** Who has made which staging directory in a run. */
  ghost function Made(actions: seq<Action>): set<(nat, nat)> {
    if actions == [] then {}
    else
      var a := actions[|actions| - 1];
      Made(actions[..|actions| - 1]) +
      if a.Mkdir? && Before(actions).Some? && !StageThere(Before(actions).value, a.p) then
        {(a.p, SaverOf(Before(actions).value, a.p).version)}
      else {}
  }

  /** The versions, from the first that `p` tried on, that other saves have staged. */
  ghost function StagedByOthers(actions: seq<Action>, p: nat): set<nat> {
    set m | m in Made(actions) && m.0 != p && m.1 >= FirstTry(actions, p) :: m.1
  }

  /** Every directory there is, staged or published, was made by its owner. */
  ghost predicate OwnersMade(s: State, made: set<(nat, nat)>) {
    (forall v :: v in s.entries.pending ==> (s.entries.pending[v].owner, v) in made) &&
    (forall v :: v in s.entries.published ==> (s.entries.published[v].owner, v) in made)
  }

  lemma StepOwnersMade(s: State, a: Action, made: set<(nat, nat)>)
    requires Inv(s) && Enabled(s, a) && OwnersMade(s, made)
    ensures OwnersMade(Next(s, a),
              if a.Mkdir? && !StageThere(s, a.p) then made + {(a.p, SaverOf(s, a.p).version)} else made)
  {
    assert OwnsStage(s, a.p);
  }

  lemma {:induction false} RunOwnersMade(actions: seq<Action>)
    requires RunOf(actions).Some?
    ensures OwnersMade(RunOf(actions).value, Made(actions))
  {
    if actions != [] {
      var init, a := actions[..|actions| - 1], actions[|actions| - 1];
      RunsKeepInv(init);
      RunOwnersMade(init);
      StepOwnersMade(RunOf(init).value, a, Made(init));
      hide Enabled, Next, Inv, OwnersMade;
      assert Made(init) + {} == Made(init);
    }
  }

  ghost predicate MadeByOther(made: set<(nat, nat)>, p: nat, v: nat) {
    exists q :: q != p && (q, v) in made
  }

  /** A save is at the version it tried first plus its retries, and others have staged all those it left. */
  ghost predicate Counted(s: State, p: nat, first: nat, retries: nat, made: set<(nat, nat)>) {
    var me := SaverOf(s, p);
    me.version == first + retries &&
    (me.stage.Idle? || me.stage.Listing? ==> me.version == 0) &&
    forall w :: first <= w < me.version ==> MadeByOther(made, p, w)
  }

  lemma StepCounted(s: State, a: Action, p: nat, first: nat, retries: nat, made: set<(nat, nat)>)
    requires Inv(s) && Enabled(s, a) && OwnersMade(s, made) && Counted(s, p, first, retries, made)
    ensures Counted(Next(s, a), p, if a.List? && a.p == p then a.next else first,
              retries + (if a.p == p && Retries(s, a) then 1 else 0), made)
  {
    if a.p == p {
      RetriesMoveOn(s, a);
      hide Inv;
      var v := SaverOf(s, p).version;
      if a.Mkdir? && StageThere(s, p) {
        assert (s.entries.pending[v].owner, v) in made;
        assert MadeByOther(made, p, v);
      } else if a.Unstage? {
        assert (s.entries.published[v].owner, v) in made;
        assert MadeByOther(made, p, v);
      }
      hide MadeByOther;
    }
  }

  lemma CountedMore(s: State, p: nat, first: nat, retries: nat, made: set<(nat, nat)>, more: set<(nat, nat)>)
    requires Counted(s, p, first, retries, made) && made <= more
    ensures Counted(s, p, first, retries, more)
  {
    var me := SaverOf(s, p);
    forall w | first <= w < me.version ensures MadeByOther(more, p, w) {
      assert MadeByOther(made, p, w);
      var q :| q != p && (q, w) in made;
      assert (q, w) in more;
    }
  }

  lemma {:induction false} RunCounted(actions: seq<Action>, p: nat)
    requires RunOf(actions).Some?
    ensures Counted(RunOf(actions).value, p, FirstTry(actions, p), RetriesOf(actions, p), Made(actions))
  {
    if actions != [] {
      var init, a := actions[..|actions| - 1], actions[|actions| - 1];
      RunsKeepInv(init);
      RunCounted(init, p);
      RunOwnersMade(init);
      hide Enabled, Next, Inv, OwnersMade, Counted, Retries;
      StepCounted(RunOf(init).value, a, p, FirstTry(init, p), RetriesOf(init, p), Made(init));
      assert Made(init) <= Made(actions);
      CountedMore(RunOf(actions).value, p, FirstTry(actions, p), RetriesOf(actions, p), Made(init), Made(actions));
    }
  }

  lemma {:induction false} RangeFits(from: nat, to: nat, versions: set<nat>)
    requires from <= to && forall w :: from <= w < to ==> w in versions
    ensures to - from <= |versions|
  {
    if from < to {
      RangeFits(from, to - 1, versions - {to - 1});
    }
  }

  /**
   * In every interleaving a save retries at most as often as there are versions, from the first it
   * tried on, that other saves have staged; it is then that many versions further.
   */
  lemma RetriesAreBounded(actions: seq<Action>, p: nat)
    requires RunOf(actions).Some?
    ensures RetriesOf(actions, p) <= |StagedByOthers(actions, p)|
    ensures SaverOf(RunOf(actions).value, p).version == FirstTry(actions, p) + RetriesOf(actions, p)
  {
    RunCounted(actions, p);
    var first, version, made := FirstTry(actions, p), SaverOf(RunOf(actions).value, p).version, Made(actions);
    forall w | first <= w < version ensures w in StagedByOthers(actions, p) {
      assert MadeByOther(made, p, w);
      var q :| q != p && (q, w) in made;
    }
    RangeFits(first, version, StagedByOthers(actions, p));
  }

  /** Above everything in the directory a save gets its version with its next two steps. */
  lemma FreeVersionIsTaken(s: State, p: nat)
    requires Inv(s) && SaverOf(s, p).stage.Seeking? && Taken(s.entries, SaverOf(s, p).version) == {}
    ensures var s' := Next(s, Mkdir(p));
            Enabled(s', Check(p)) && SaverOf(Next(s', Check(p)), p) == SaverOf(s, p).(stage := Checked)
  {
    assert SaverOf(s, p).version !in Taken(s.entries, SaverOf(s, p).version);
  }

  ghost predicate AboveAll(versions: set<nat>, v: nat) {
    forall w :: w in versions ==> w < v
  }

  /** The greatest of the versions listed. */
  method LastVersion(listed: set<nat>) returns (last: Option<nat>)
    ensures last.None? <==> listed == {}
    ensures last.Some? ==> last.value in listed && forall w :: w in listed ==> w <= last.value
  {
    last := None;
    var todo := listed;
    while todo != {}
      invariant todo <= listed
      invariant last.None? ==> todo == listed
      invariant last.Some? ==> last.value in listed
      invariant forall w :: w in listed && w !in todo ==> last.Some? && w <= last.value
      decreases |todo|
    {
      var v :| v in todo;
      if last.None? || last.value < v {
        last := Some(v);
      }
      todo := todo - {v};
    }
  }

  /** The `versions` directory in the hands of one save. */
  class VersionsDirectory {
    var published: map<nat, Dir>
    var pending: map<nat, Dir>

    constructor (entries: Entries)
      ensures Contents() == entries
    {
      published, pending := entries.published, entries.pending;
    }

    function Contents(): Entries
      reads this
    {
      Entries(published, pending)
    }

    /**
     * `reserve_version_dir`, after a listing that others may have outrun: the search ends, on the
     * least version above all listed ones that is neither staged nor published, and stages it.
     */
    method Reserve(me: nat, listed: set<nat>) returns (version: nat)
      modifies this`pending
      ensures AboveAll(listed, version) && version !in old(pending) && version !in published
      ensures forall w: nat :: AboveAll(listed, w) && w < version ==> w in old(pending) || w in published
      ensures pending == old(pending)[version := Dir(me, false, false)]
    {
      var last := LastVersion(listed);
      version := if last.Some? then last.value + 1 else 0;
      while true
        invariant pending == old(pending) && AboveAll(listed, version)
        invariant forall w: nat :: AboveAll(listed, w) && w < version ==> w in old(pending) || w in published
        decreases |Taken(Contents(), version)|
      {
        if version in pending {
          FewerTaken(Contents(), version);
          version := version + 1;
          continue;
        }
        ghost var before := pending;
        pending := pending[version := Dir(me, false, false)];
        if version !in published {
          return;
        }
        pending := pending - {version};
        assert pending == before;
        FewerTaken(Contents(), version);
        version := version + 1;
      }
    }
  }
}
