/** Artifacts that refer to other artifacts: what a load of one leads to, and when it ends. */
module ArtifactReferences {
  import opened Wrappers
  import opened Orderings
  import opened ArtifactKeys
  import opened ArtifactSpec
  import Uri = ArtifactUri

  type Entries = map<string, seq<Part>>

  function EntriesAt(m: Entries, path: string): seq<Part> {
    if path in m then m[path] else []
  }

  /** The sentinels that a load reports as no artifact; data may be any text, not only base64. */
  predicate IsEmptyArtifact(part: Part) {
    match part
    case Text(text) => text == ""
    case Inline(blob) => blob.data.None? || blob.data.value == ""
    case FileData(_) => false
    case NoContent => true
  }

  /** `is_artifact_ref`. */
  predicate IsReference(part: Part) {
    part.FileData? && part.uri.Some? && "artifact://" <= part.uri.value
  }

  /** `validate_artifact_reference_scope`. */
  predicate InScope(app: string, user: string, session: string, ref: Uri.Reference) {
    ref.app == app && ref.user == user && (ref.session.Some? ==> ref.session.value == session)
  }

  /** The reference of a part may be saved; one whose URI does not parse is let through. */
  predicate MayRefer(app: string, user: string, session: string, part: Part) {
    IsReference(part) && Uri.Parse(part.uri.value).Some? ==>
      InScope(app, user, session, Uri.Parse(part.uri.value).value)
  }

  // ----- One step of a load -----

  datatype Request = Request(app: string, user: string, session: string, filename: string, version: Option<int>)

  datatype Step = Panics | Missing | Finds(part: Part) | Refers(next: Request)

  /** A `u64` cast to `i64`. */
  function AsI64(v: nat): int {
    if v < 0x8000_0000_0000_0000 then v else v - 0x1_0000_0000_0000_0000
  }

  function StepTo(q: Request, uri: string): Step {
    match Uri.Parse(uri)
    case None => Panics
    case Some(ref) =>
      if !InScope(q.app, q.user, q.session, ref) then Panics
      else
        Refers(Request(ref.app, ref.user, if ref.session.Some? then ref.session.value else q.session,
                       ref.filename, Some(AsI64(ref.version))))
  }

  function PathOf(q: Request): Option<string> {
    ArtifactPath(q.app, q.user, q.filename, q.session)
  }

  /** The version a request is about, if there is one. */
  function EntryOf(m: Entries, q: Request): Option<Part> {
    match PathOf(q)
    case None => None
    case Some(path) =>
      var versions := EntriesAt(m, path);
      match VersionIndex(|versions|, q.version)
      case None => None
      case Some(i) => Some(versions[i])
  }

  function LoadStep(m: Entries, q: Request): Step {
    if PathOf(q).None? then Panics
    else
      match EntryOf(m, q)
      case None => Missing
      case Some(part) =>
        if IsReference(part) then StepTo(q, part.uri.value)
        else if IsEmptyArtifact(part) then Missing
        else Finds(part)
  }

  /** The step of a request for a version that is there. */
  lemma StepAt(m: Entries, q: Request, path: string, i: nat)
    requires PathOf(q) == Some(path) && path in m && VersionIndex(|m[path]|, q.version) == Some(i)
    ensures LoadStep(m, q) ==
            if IsReference(m[path][i]) then StepTo(q, m[path][i].uri.value)
            else if IsEmptyArtifact(m[path][i]) then Missing
            else Finds(m[path][i])
  {
    hide ArtifactPath, StepTo;
  }

  lemma NoStep(m: Entries, q: Request)
    ensures PathOf(q).None? ==> LoadStep(m, q).Panics?
    ensures PathOf(q).Some? && VersionIndex(|EntriesAt(m, PathOf(q).value)|, q.version).None? ==> LoadStep(m, q).Missing?
  {
    hide ArtifactPath, StepTo;
  }

  /** What a load comes to after at most `depth` references; `None` if there are more. */
  function Follow(m: Entries, q: Request, depth: nat): (r: Option<Step>)
    ensures r.Some? ==> !r.value.Refers?
    decreases depth
  {
    match LoadStep(m, q)
    case Refers(next) => if depth == 0 then None else Follow(m, next, depth - 1)
    case step => Some(step)
  }

  lemma FollowUnfolds(m: Entries, q: Request, depth: nat)
    ensures Follow(m, q, depth) ==
            match LoadStep(m, q)
            case Refers(next) => if depth == 0 then None else Follow(m, next, depth - 1)
            case step => Some(step)
  {
    hide LoadStep;
  }

  /** The load comes to an end. */
  ghost predicate Ends(m: Entries, q: Request) {
    exists depth: nat :: Follow(m, q, depth).Some?
  }

  lemma {:induction false} DeeperIsSame(m: Entries, q: Request, depth: nat, more: nat)
    requires Follow(m, q, depth).Some? && depth <= more
    ensures Follow(m, q, more) == Follow(m, q, depth)
    decreases depth
  {
    hide LoadStep;
    if LoadStep(m, q).Refers? {
      DeeperIsSame(m, LoadStep(m, q).next, depth - 1, more - 1);
    }
  }

  // ----- The requests a load makes -----

  /** The requests made one after the other. */
  ghost predicate Chain(m: Entries, chain: seq<Request>) {
    chain != [] && forall k :: 0 < k < |chain| ==> LoadStep(m, chain[k - 1]) == Refers(chain[k])
  }

  /** No reference leads out of the app, the user and the session that the load began with. */
  lemma {:induction false} ChainStaysInScope(m: Entries, chain: seq<Request>, k: nat)
    requires Chain(m, chain) && k < |chain|
    ensures chain[k].app == chain[0].app && chain[k].user == chain[0].user && chain[k].session == chain[0].session
  {
    if k > 0 {
      ChainStaysInScope(m, chain, k - 1);
      assert LoadStep(m, chain[k - 1]) == Refers(chain[k]);
    }
  }

  lemma {:induction false} FollowsChain(m: Entries, q: Request, depth: nat) returns (chain: seq<Request>)
    requires Follow(m, q, depth).Some?
    ensures Chain(m, chain) && chain[0] == q && LoadStep(m, chain[|chain| - 1]) == Follow(m, q, depth).value
    decreases depth
  {
    hide LoadStep;
    match LoadStep(m, q) {
      case Refers(next) =>
        var rest := FollowsChain(m, next, depth - 1);
        chain := [q] + rest;
        forall k | 0 < k < |chain| ensures LoadStep(m, chain[k - 1]) == Refers(chain[k]) {
          assert k > 1 ==> chain[k] == rest[k - 1] && chain[k - 1] == rest[k - 2];
        }
      case _ => chain := [q];
    }
  }

  /** Whatever a load gives is a version of an artifact that could be asked for directly by the same session. */
  lemma LoadsStayInScope(m: Entries, q: Request, depth: nat) returns (filename: string, version: Option<int>)
    requires Follow(m, q, depth).Some? && Follow(m, q, depth).value.Finds?
    ensures var direct := q.(filename := filename, version := version);
            LoadStep(m, direct) == Follow(m, q, depth).value && EntryOf(m, direct) == Some(Follow(m, q, depth).value.part)
  {
    var chain := FollowsChain(m, q, depth);
    var last := chain[|chain| - 1];
    ChainStaysInScope(m, chain, |chain| - 1);
    filename, version := last.filename, last.version;
  }

  // ----- When a load ends -----

  ghost predicate Cyclic(m: Entries, q: Request) {
    exists chain :: Chain(m, chain) && chain[0] == q && !NoRepeats(chain)
  }

  /** The requests that the references in the store lead to, from a given app, user and session. */
  ghost function Targets(m: Entries, q: Request): set<Request> {
    set path, i | path in m && 0 <= i < |m[path]| && IsReference(m[path][i]) && StepTo(q, m[path][i].uri.value).Refers? ::
      StepTo(q, m[path][i].uri.value).next
  }

  lemma StepIsTarget(m: Entries, q: Request, r: Request)
    requires LoadStep(m, r).Refers?
    requires r.app == q.app && r.user == q.user && r.session == q.session
    ensures LoadStep(m, r).next in Targets(m, q)
  {
    var path := PathOf(r).value;
    var i := VersionIndex(|EntriesAt(m, path)|, r.version).value;
    assert path in m && IsReference(m[path][i]);
    assert StepTo(q, m[path][i].uri.value) == StepTo(r, m[path][i].uri.value);
  }

  /** A load that does not end within `depth` references makes as many more requests. */
  lemma {:induction false} EndlessChain(m: Entries, q: Request, depth: nat) returns (chain: seq<Request>)
    requires Follow(m, q, depth).None?
    ensures Chain(m, chain) && chain[0] == q && |chain| == depth + 2
    decreases depth
  {
    hide LoadStep;
    var next := LoadStep(m, q).next;
    if depth == 0 {
      chain := [q, next];
    } else {
      var rest := EndlessChain(m, next, depth - 1);
      chain := [q] + rest;
      forall k | 0 < k < |chain| ensures LoadStep(m, chain[k - 1]) == Refers(chain[k]) {
        assert k > 1 ==> chain[k] == rest[k - 1] && chain[k - 1] == rest[k - 2];
      }
    }
  }

  lemma EndsOrCyclic(m: Entries, q: Request)
    ensures Follow(m, q, |Targets(m, q)|).Some? || Cyclic(m, q)
  {
    if Follow(m, q, |Targets(m, q)|).None? {
      var chain := EndlessChain(m, q, |Targets(m, q)|);
      var tail := chain[1..];
      forall k | 0 <= k < |tail| ensures tail[k] in Targets(m, q) {
        ChainStaysInScope(m, chain, k);
        assert LoadStep(m, chain[k]) == Refers(chain[k + 1]);
        StepIsTarget(m, q, chain[k]);
      }
      Pigeonhole(tail, Targets(m, q));
      var i, j :| 0 <= i < j < |tail| && tail[i] == tail[j];
      assert chain[i + 1] == chain[j + 1];
    }
  }

  lemma {:induction false} FollowAlong(m: Entries, chain: seq<Request>, k: nat, depth: nat)
    requires Chain(m, chain) && k < |chain| && Follow(m, chain[0], depth).Some?
    ensures k <= depth && Follow(m, chain[k], depth - k) == Follow(m, chain[0], depth)
  {
    hide LoadStep;
    if k > 0 {
      FollowAlong(m, chain, k - 1, depth);
      assert LoadStep(m, chain[k - 1]) == Refers(chain[k]);
    }
  }

  /** A request that leads back to itself never ends. */
  lemma {:induction false} CyclesDoNotEnd(m: Entries, chain: seq<Request>, depth: nat)
    requires Chain(m, chain) && |chain| > 1 && chain[|chain| - 1] == chain[0]
    ensures Follow(m, chain[0], depth).None?
    decreases depth
  {
    hide Follow, LoadStep;
    if Follow(m, chain[0], depth).Some? {
      FollowAlong(m, chain, |chain| - 1, depth);
      CyclesDoNotEnd(m, chain, depth - (|chain| - 1));
    }
  }

  lemma RepeatDoesNotEnd(m: Entries, chain: seq<Request>, i: nat, j: nat, depth: nat)
    requires Chain(m, chain) && i < j < |chain| && chain[i] == chain[j]
    ensures Follow(m, chain[0], depth).None?
  {
    hide Follow, LoadStep;
    if Follow(m, chain[0], depth).Some? {
      FollowAlong(m, chain, i, depth);
      var around := chain[i..j + 1];
      forall k | 0 < k < |around| ensures LoadStep(m, around[k - 1]) == Refers(around[k]) {
        assert around[k] == chain[i + k] && around[k - 1] == chain[i + k - 1];
      }
      CyclesDoNotEnd(m, around, depth - i);
    }
  }

  /** A load ends exactly when it never makes the same request twice. */
  lemma EndsUnlessCyclic(m: Entries, q: Request)
    ensures Ends(m, q) <==> !Cyclic(m, q)
  {
    hide Follow, LoadStep;
    EndsOrCyclic(m, q);
    if Cyclic(m, q) {
      var chain :| Chain(m, chain) && chain[0] == q && !NoRepeats(chain);
      var i, j :| 0 <= i < j < |chain| && chain[i] == chain[j];
      forall depth: nat ensures Follow(m, q, depth).None? {
        RepeatDoesNotEnd(m, chain, i, j, depth);
      }
    }
  }

  lemma TwiceIsCyclic(m: Entries, q: Request)
    requires LoadStep(m, q) == Refers(q)
    ensures Cyclic(m, q)
  {
    hide LoadStep;
    var chain := [q, q];
    assert Chain(m, chain) && chain[0] == chain[1];
  }

  /**
   * A version that refers to an artifact of the same app, user and session, under the URI that is printed
   * for it with or without the session, loads as that version of that artifact does; a number from 2^63
   * on is read as a negative one, which no version has.
   */
  lemma ReferenceIsFollowed(m: Entries, q: Request, ref: Uri.Reference, part: Part, depth: nat)
    requires Uri.Segment(ref.app) && Uri.Segment(ref.user) && Uri.Name(ref.filename) && ref.version < Uri.U64_LIMIT
    requires ref.app == q.app && ref.user == q.user && Uri.Segment(q.session)
    requires ref.session.None? || ref.session == Some(q.session)
    requires part == FileData(Some(Uri.Print(ref.app, ref.user, ref.filename, ref.version, ref.session)))
    requires PathOf(q).Some? && EntryOf(m, q) == Some(part)
    ensures ref.version < 0x8000_0000_0000_0000 ==>
              Follow(m, q, depth + 1) == Follow(m, q.(filename := ref.filename, version := Some(ref.version)), depth)
    ensures ref.version >= 0x8000_0000_0000_0000 && PathOf(q.(filename := ref.filename, version := None)).Some? ==>
              Follow(m, q, depth + 1) == Some(Missing)
  {
    hide PathOf, EntryOf, Uri.Parse, Uri.Print, Uri.Segment, Uri.Name;
    assert Uri.U64_LIMIT == 0x1_0000_0000_0000_0000;
    Uri.RoundTrip(ref);
    Scheme(ref);
    var next := q.(filename := ref.filename, version := Some(AsI64(ref.version)));
    assert LoadStep(m, q) == Refers(next);
    FollowUnfolds(m, q, depth + 1);
    hide LoadStep;
    if ref.version >= 0x8000_0000_0000_0000 {
      NegativeIsMissing(m, next);
      FollowUnfolds(m, next, depth);
    }
  }

  lemma NegativeIsMissing(m: Entries, q: Request)
    requires q.version.Some? && q.version.value < 0
    ensures PathOf(q).Some? ==> LoadStep(m, q) == Missing
    ensures PathOf(q) == PathOf(q.(version := None))
  {
    hide ArtifactPath;
    NoStep(m, q);
  }

  lemma SelfStep(m: Entries, q: Request, ref: Uri.Reference, part: Part)
    requires PathOf(q).Some? && Uri.Segment(q.app) && Uri.Segment(q.user) && Uri.Segment(q.session) && Uri.Name(q.filename)
    requires q.version.Some? && 0 <= q.version.value < 0x8000_0000_0000_0000
    requires ref == Uri.Reference(q.app, q.user, Some(q.session), q.filename, q.version.value)
    requires part == FileData(Some(Uri.Print(ref.app, ref.user, ref.filename, ref.version, ref.session)))
    requires EntryOf(m, q) == Some(part)
    ensures IsReference(part) && MayRefer(q.app, q.user, q.session, part) && LoadStep(m, q) == Refers(q)
  {
    hide PathOf, EntryOf, Uri.Parse, Uri.Print, Uri.Segment, Uri.Name;
    assert Uri.U64_LIMIT == 0x1_0000_0000_0000_0000;
    Uri.RoundTrip(ref);
    Scheme(ref);
  }

  /** A version that refers to itself may be saved, and then loading it never ends. */
  lemma SelfReferenceNeverEnds(m: Entries, q: Request, ref: Uri.Reference, part: Part)
    requires PathOf(q).Some? && Uri.Segment(q.app) && Uri.Segment(q.user) && Uri.Segment(q.session) && Uri.Name(q.filename)
    requires q.version.Some? && 0 <= q.version.value < 0x8000_0000_0000_0000
    requires ref == Uri.Reference(q.app, q.user, Some(q.session), q.filename, q.version.value)
    requires part == FileData(Some(Uri.Print(ref.app, ref.user, ref.filename, ref.version, ref.session)))
    requires EntryOf(m, q) == Some(part)
    ensures IsReference(part) && MayRefer(q.app, q.user, q.session, part)
    ensures !Ends(m, q)
  {
    hide *;
    SelfStep(m, q, ref, part);
    TwiceIsCyclic(m, q);
    EndsUnlessCyclic(m, q);
  }

  lemma Scheme(r: Uri.Reference)
    requires Uri.Parse(Uri.Print(r.app, r.user, r.filename, r.version, r.session)).Some?
    ensures "artifact://" <= Uri.Print(r.app, r.user, r.filename, r.version, r.session)
  {
  }

  // ----- References across sessions -----

  /**
   * A reference that was accepted when it was saved from session `saver` is refused when it is loaded
   * from `loader` exactly if its URI does not parse, or names a session and the two sessions differ.
   */
  lemma SavedReferenceRefused(q: Request, saver: string, part: Part)
    requires IsReference(part) && MayRefer(q.app, q.user, saver, part)
    ensures var parsed := Uri.Parse(part.uri.value);
            StepTo(q, part.uri.value).Panics? <==>
            parsed.None? || (parsed.value.session.Some? && saver != q.session)
  {
  }
}
