/** What an artifact store is for: numbered versions under keys, with nothing said about storage. */
module ArtifactSpec {
  import opened Wrappers
  import opened Orderings
  import opened ArtifactKeys
  import opened Base64

  datatype Blob = Blob(mime: Option<string>, data: Option<string>, displayName: Option<string>)

  /** A part has one kind of content; `uri` is the `fileUri` of its file data, if that has one. */
  datatype Part = Text(text: string) | Inline(blob: Blob) | FileData(uri: Option<string>) | NoContent

  /** The versions of each artifact, from version 0 on. */
  type Store = map<Key, seq<Part>>

  function VersionsOf(a: Store, k: Key): seq<Part> {
    if k in a then a[k] else []
  }

  /** The index of the version asked for among `count`; none asked for means the latest. */
  function VersionIndex(count: nat, version: Option<int>): (r: Option<nat>)
    ensures r.Some? ==> r.value < count
  {
    match version
    case None => if count == 0 then None else Some(count - 1)
    case Some(v) => if 0 <= v < count then Some(v) else None
  }

  function UpTo(n: nat): seq<int> {
    if n == 0 then [] else UpTo(n - 1) + [n - 1]
  }

  // ----- Histories -----

  datatype Op =
    | Save(app: string, user: string, session: string, filename: string, part: Part)
    | Load(app: string, user: string, session: string, filename: string, version: Option<int>)
    | Delete(app: string, user: string, session: string, filename: string)
    | ListVersions(app: string, user: string, session: string, filename: string)
    | ListKeys(app: string, user: string, session: string)

  datatype Reply =
    | Saved(version: int)
    | Loaded(part: Option<Part>)
    | Deleted
    | Versions(versions: seq<int>)
    | Names(names: seq<string>)
    | Refused

  function KeyFor(op: Op): Key
    requires !op.ListKeys?
  {
    KeyOf(op.app, op.user, op.session, op.filename)
  }

  function Apply(a: Store, op: Op): Store {
    match op
    case Save(_, _, _, _, part) => a[KeyFor(op) := VersionsOf(a, KeyFor(op)) + [part]]
    case Delete(_, _, _, _) => a - {KeyFor(op)}
    case _ => a
  }

  /** The names a session sees: its own and its user's. */
  ghost function NamesIn(a: Store, app: string, user: string, session: string): set<string> {
    set k | k in a && k.app == app && k.user == user && (k.scope.UserScope? || k.scope == SessionScope(session)) ::
      k.filename
  }

  /** `reply` is the right answer to `op` in store `a`. */
  ghost predicate Answers(a: Store, op: Op, reply: Reply) {
    match op
    case Save(_, _, _, _, _) => reply == Saved(|VersionsOf(a, KeyFor(op))|)
    case Load(_, _, _, _, version) =>
      var versions := VersionsOf(a, KeyFor(op));
      var i := VersionIndex(|versions|, version);
      reply == Loaded(if i.Some? then Some(versions[i.value]) else None)
    case Delete(_, _, _, _) => reply == Deleted
    case ListVersions(_, _, _, _) => reply == Versions(UpTo(|VersionsOf(a, KeyFor(op))|))
    case ListKeys(app, user, session) => reply.Names? && Lists(reply.names, NamesIn(a, app, user, session))
  }

  /** There is one right answer. */
  lemma AnswerUnique(a: Store, op: Op, r: Reply, r': Reply)
    requires Answers(a, op, r) && Answers(a, op, r')
    ensures r == r'
  {
    if op.ListKeys? {
      ListsUnique(r.names, r'.names, NamesIn(a, op.app, op.user, op.session));
    }
  }

  /**
   * After a save, loading without a version or by the number that the save gave gives the part saved;
   * by any other number it gives what it gave before.
   */
  lemma LoadAfterSave(a: Store, save: Op, version: Option<int>, reply: Reply)
    requires save.Save?
    requires Answers(Apply(a, save), Load(save.app, save.user, save.session, save.filename, version), reply)
    ensures var count := |VersionsOf(a, KeyFor(save))|;
            Answers(a, save, Saved(count)) &&
            (version.None? || version == Some(count) ==> reply == Loaded(Some(save.part))) &&
            (version.Some? && version != Some(count) ==>
               Answers(a, Load(save.app, save.user, save.session, save.filename, version), reply))
  {
  }

  /** A number loads the part at that position, and nothing if there is none; no number loads the last. */
  lemma LoadExact(a: Store, load: Op, reply: Reply)
    requires load.Load? && Answers(a, load, reply)
    ensures var versions := VersionsOf(a, KeyFor(load));
            match load.version
            case Some(v) => reply == Loaded(if 0 <= v < |versions| then Some(versions[v]) else None)
            case None => if versions == [] then reply == Loaded(None)
                         else exists before, last :: versions == before + [last] && reply == Loaded(Some(last))
  {
    var versions := VersionsOf(a, KeyFor(load));
    if load.version.None? && versions != [] {
      assert versions == versions[..|versions| - 1] + [versions[|versions| - 1]];
    }
  }

  // ----- Where the two stores agree -----

  /** Data that is the base64 text of some bytes, at least one. */
  ghost predicate CanonicalData(data: string) {
    exists bytes: seq<Byte> :: bytes != [] && data == Encode(bytes)
  }

  /** A payload that both stores can give back as it is: text or typed data, and not empty. */
  ghost predicate Faithful(part: Part) {
    match part
    case Text(text) => text != ""
    case Inline(Blob(mime, data, _)) =>
      mime.Some? && mime.value != "" && data.Some? && CanonicalData(data.value)
    case _ => false
  }

  // ----- What the file store keeps -----

  /**
   * The part that the file store gives back of a part it is given: a text as it is, and data as the
   * base64 text of the bytes it decodes to, under a type; of anything else it can give nothing back.
   */
  function KeptAs(part: Part): Option<Part> {
    match part
    case Text(_) => Some(part)
    case Inline(Blob(mime, data, displayName)) =>
      if data.None? || DecodeFrom(data.value, 0, 0).None? then None
      else
        Some(Inline(Blob(Some(if mime.Some? && mime.value != "" then mime.value else "application/octet-stream"),
                         Some(Encode(DecodeFrom(data.value, 0, 0).value)), displayName)))
    case _ => None
  }

  /** It comes back as it is. */
  predicate KeptWhole(part: Part) {
    KeptAs(part) == Some(part)
  }

  /** What a save of `part` is to come back as. */
  ghost predicate ComesBackAs(part: Part, back: Part) {
    (part.Text? && back == part) ||
    (part.Inline? && part.blob.data.Some? && back.Inline? &&
     back.blob.displayName == part.blob.displayName && back.blob.mime.Some? &&
     (if part.blob.mime.None? || part.blob.mime.value == "" then back.blob.mime.value == "application/octet-stream"
      else back.blob.mime == part.blob.mime) &&
     exists bytes: seq<Byte> ::
       DecodeFrom(part.blob.data.value, 0, 0) == Some(bytes) && back.blob.data == Some(Encode(bytes)))
  }

  /**
   * A text, empty or not, comes back as itself; data as the canonical text of the same bytes, under its
   * own type or else as an octet stream, with its display name.  What came back comes back as it is.
   */
  lemma KeptAsExact(part: Part)
    ensures KeptAs(part).Some? ==> ComesBackAs(part, KeptAs(part).value) && KeptWhole(KeptAs(part).value)
    ensures KeptAs(part).None? <==>
            !part.Text? && (!part.Inline? || part.blob.data.None? || DecodeFrom(part.blob.data.value, 0, 0).None?)
  {
    if part.Inline? && KeptAs(part).Some? {
      RoundTrip(DecodeFrom(part.blob.data.value, 0, 0).value);
    }
  }

  /** Texts come back as they are, and exactly that data which is typed and the base64 text of some bytes. */
  lemma KeptWholeExact(part: Part)
    ensures KeptWhole(part) <==>
            part.Text? ||
            (part.Inline? && part.blob.mime.Some? && part.blob.mime.value != "" && part.blob.data.Some? &&
             exists bytes: seq<Byte> :: part.blob.data.value == Encode(bytes))
  {
    if part.Inline? && part.blob.data.Some? {
      if bytes: seq<Byte> :| part.blob.data.value == Encode(bytes) {
        RoundTrip(bytes);
      }
    }
  }

  lemma FaithfulIsKept(part: Part)
    requires Faithful(part)
    ensures KeptWhole(part)
  {
    if part.Inline? {
      var bytes: seq<Byte> :| bytes != [] && part.blob.data.value == Encode(bytes);
      RoundTrip(bytes);
    }
  }

  /** What the file store may hold: parts that come back as they are, under keys that lead to their places. */
  ghost predicate DiskStore(a: Store) {
    forall k :: k in a ==> GoodKey(k) && forall i :: 0 <= i < |a[k]| ==> KeptWhole(a[k][i])
  }

  ghost predicate GoodOp(op: Op) {
    match op
    case ListKeys(app, user, session) => PlainId(app) && PlainId(user) && PlainId(session) && session != "user"
    case Save(_, _, _, _, part) => GoodKey(KeyFor(op)) && Faithful(part)
    case _ => GoodKey(KeyFor(op))
  }

  /** An artifact may be without versions: a save that fails in the file store leaves it so. */
  ghost predicate GoodStore(a: Store) {
    forall k :: k in a ==> GoodKey(k) && forall i :: 0 <= i < |a[k]| ==> Faithful(a[k][i])
  }

  lemma GoodStays(a: Store, op: Op)
    requires GoodStore(a) && GoodOp(op)
    ensures GoodStore(Apply(a, op))
  {
    hide GoodKey, Faithful;
  }
}
