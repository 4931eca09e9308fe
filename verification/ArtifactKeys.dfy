/** How artifacts are named: identifiers, scopes, path keys and normal filenames. */
module ArtifactKeys {
  import opened Wrappers
  import opened Strings
  import opened Orderings

  const USER_PREFIX := "user:"

  // ----- Identifiers -----

  predicate IsAsciiLetter(c: char) {
    'a' <= c <= 'z' || 'A' <= c <= 'Z'
  }

  predicate Rooted(s: string) {
    s != "" && (s[0] == '/' || s[0] == '\\')
  }

  predicate DriveQualified(s: string) {
    |s| >= 2 && IsAsciiLetter(s[0]) && s[1] == ':'
  }

  function Slashed(s: string): string {
    if s == "" then "" else [if s[0] == '\\' then '/' else s[0]] + Slashed(s[1..])
  }

  predicate HasParentReference(s: string) {
    ".." in Split(Slashed(s), '/')
  }

  /** `validate_path_segment`: what every store accepts as an identifier. */
  predicate ValidId(s: string) {
    s != "" && '\0' !in s && !Rooted(s) && !DriveQualified(s) && s != "." && !HasParentReference(s)
  }

  predicate IsSlash(c: char) {
    c == '/' || c == '\\'
  }

  /** Two dots stand at `i` between slashes of either kind or the ends. */
  ghost predicate DotsAt(s: string, i: int) {
    0 <= i && i + 2 <= |s| && s[i] == '.' && s[i + 1] == '.' &&
    (i > 0 ==> IsSlash(s[i - 1])) && (i + 2 < |s| ==> IsSlash(s[i + 2]))
  }

  lemma {:induction false} SlashedAt(s: string)
    ensures |Slashed(s)| == |s| && forall i :: 0 <= i < |s| ==> Slashed(s)[i] == if s[i] == '\\' then '/' else s[i]
  {
    if s != "" {
      SlashedAt(s[1..]);
    }
  }

  lemma ParentReferenceExact(s: string)
    ensures HasParentReference(s) <==> exists i :: DotsAt(s, i)
  {
    var t := Slashed(s);
    SlashedAt(s);
    SplitMembers(t, "..", '/');
    hide Split, Slashed;
    assert Split(t, '/') == [Split(t, '/')[0]] + Split(t, '/')[1..];
    forall i ensures StandsAt(t, "..", '/', i) <==> DotsAt(s, i) {
      if 0 <= i && i + 2 <= |s| {
        assert t[i..i + 2] == [t[i], t[i + 1]];
      }
    }
    assert HasParentReference(s) <==> StandsAt(t, "..", '/', 0) || StandsLater(t, "..", '/');
  }

  /**
   * An identifier is accepted exactly if it is not empty and has no NUL, does not begin with a slash of
   * either kind or a letter and a colon, is not a dot, and has no two dots between slashes.
   */
  lemma ValidIdExact(s: string)
    ensures ValidId(s) <==>
            s != "" && s != "." && (forall i :: 0 <= i < |s| ==> s[i] != '\0') && !IsSlash(s[0]) &&
            (|s| >= 2 && s[1] == ':' ==> !('a' <= s[0] <= 'z') && !('A' <= s[0] <= 'Z')) &&
            !(exists i :: DotsAt(s, i))
  {
    ParentReferenceExact(s);
    hide HasParentReference, DotsAt;
  }

  /** An identifier that is one segment of a path; a valid one may still have slashes inside. */
  predicate PlainId(s: string) {
    ValidId(s) && '/' !in s
  }

  // ----- Keys -----

  /** Filenames that start with `user:` belong to the user, all others to a session. */
  datatype Scope = UserScope | SessionScope(id: string)

  datatype Key = Key(app: string, user: string, scope: Scope, filename: string)

  predicate UserNamed(filename: string) {
    USER_PREFIX <= filename
  }

  function KeyOf(app: string, user: string, session: string, filename: string): Key {
    Key(app, user, if UserNamed(filename) then UserScope else SessionScope(session), filename)
  }

  /** The key is one `KeyOf` makes from slash-free ids. */
  predicate PlainKey(k: Key) {
    PlainId(k.app) && PlainId(k.user) && (k.scope.UserScope? <==> UserNamed(k.filename)) &&
    (k.scope.SessionScope? ==> PlainId(k.scope.id))
  }

  function ScopeFolder(scope: Scope): string {
    if scope.UserScope? then "user" else scope.id
  }

  function PathText(k: Key): string {
    k.app + "/" + (k.user + "/" + (ScopeFolder(k.scope) + "/" + k.filename))
  }

  /** `artifact_path`; `None` is the panic on an identifier that is not valid. */
  function ArtifactPath(app: string, user: string, filename: string, session: string): Option<string> {
    if !ValidId(app) || !ValidId(user) then None
    else if UserNamed(filename) then Some(PathText(Key(app, user, UserScope, filename)))
    else if !ValidId(session) then None
    else Some(PathText(Key(app, user, SessionScope(session), filename)))
  }

  /** Slash-free heads of equal texts are equal, and so are the tails. */
  lemma {:induction false} HeadsAgree(a: string, x: string, b: string, y: string)
    requires '/' !in a && '/' !in b && a + "/" + x == b + "/" + y
    ensures a == b && x == y
  {
    var s, t := a + "/" + x, b + "/" + y;
    assert (a == "" && s[0] == '/') || (a != "" && s[0] == a[0] && a[0] in a);
    assert (b == "" && t[0] == '/') || (b != "" && t[0] == b[0] && b[0] in b);
    if a == "" {
      assert s[1..] == x && t[1..] == y;
    } else {
      assert s[0] == a[0] && t[0] == b[0];
      assert s[1..] == a[1..] + "/" + x && t[1..] == b[1..] + "/" + y;
      HeadsAgree(a[1..], x, b[1..], y);
      assert a == [a[0]] + a[1..] && b == [b[0]] + b[1..];
    }
  }

  /**
   * The path text determines the key, whatever slashes the filename has; a session may even be called
   * `user`, since the filename tells the scopes apart.
   */
  lemma PathInjective(k: Key, k': Key)
    requires PlainKey(k) && PlainKey(k')
    ensures PathText(k) == PathText(k') ==> k == k'
  {
    hide ValidId;
    if PathText(k) == PathText(k') {
      HeadsAgree(k.app, k.user + "/" + (ScopeFolder(k.scope) + "/" + k.filename),
                 k'.app, k'.user + "/" + (ScopeFolder(k'.scope) + "/" + k'.filename));
      HeadsAgree(k.user, ScopeFolder(k.scope) + "/" + k.filename,
                 k'.user, ScopeFolder(k'.scope) + "/" + k'.filename);
      HeadsAgree(ScopeFolder(k.scope), k.filename, ScopeFolder(k'.scope), k'.filename);
    }
  }

  // ----- Slashes in identifiers -----

  /** What `s` begins with up to its first slash, and what follows that slash. */
  function Cut(s: string): (r: Option<(string, string)>)
    ensures r.Some? ==> '/' !in r.value.0 && s == r.value.0 + "/" + r.value.1
    ensures r.None? <==> '/' !in s
  {
    if s == "" then None
    else if s[0] == '/' then
      assert s == "" + "/" + s[1..];
      Some(("", s[1..]))
    else
      match Cut(s[1..])
      case None => None
      case Some((head, tail)) => Some(([s[0]] + head, tail))
  }

  /** The slash-free key that a path text can be read as: it is cut at its first three slashes. */
  function Reading(path: string): Option<Key> {
    match Cut(path)
    case None => None
    case Some((app, rest)) =>
      match Cut(rest)
      case None => None
      case Some((user, rest)) =>
        match Cut(rest)
        case None => None
        case Some((folder, filename)) => ReadParts(app, user, folder, filename)
  }

  function ReadParts(app: string, user: string, folder: string, filename: string): Option<Key> {
    if !PlainId(app) || !PlainId(user) then None
    else if UserNamed(filename) then
      if folder == "user" then Some(Key(app, user, UserScope, filename)) else None
    else if PlainId(folder) then Some(Key(app, user, SessionScope(folder), filename))
    else None
  }

  lemma CutHead(head: string, tail: string)
    requires '/' !in head
    ensures Cut(head + "/" + tail) == Some((head, tail))
  {
    var r := Cut(head + "/" + tail);
    assert (head + "/" + tail)[|head|] == '/';
    HeadsAgree(head, tail, r.value.0, r.value.1);
  }

  /** A path text is that of a slash-free key exactly when it reads as that key; so other keys collide with one exactly then. */
  lemma ReadingExact(path: string, k: Key)
    ensures PlainKey(k) && PathText(k) == path <==> Reading(path) == Some(k)
  {
    hide ValidId, Cut;
    if PlainKey(k) && PathText(k) == path {
      var folder := ScopeFolder(k.scope);
      CutHead(k.app, k.user + "/" + (folder + "/" + k.filename));
      CutHead(k.user, folder + "/" + k.filename);
      CutHead(folder, k.filename);
    }
  }

  lemma SplitCons(s: string)
    requires s != ""
    ensures var rest := Split(s[1..], '/');
            Split(s, '/') == if s[0] == '/' then [""] + rest else [[s[0]] + rest[0]] + rest[1..]
  {
  }

  lemma RegroupPieces(c: char, rest: seq<string>, more: seq<string>)
    requires rest != []
    ensures [""] + (rest + more) == [""] + rest + more
    ensures [[c] + (rest + more)[0]] + (rest + more)[1..] == [[c] + rest[0]] + rest[1..] + more
  {
    assert (rest + more)[1..] == rest[1..] + more;
  }

  lemma {:induction false} SplitConcat(x: string, y: string)
    ensures Split(x + "/" + y, '/') == Split(x, '/') + Split(y, '/')
  {
    var s := x + "/" + y;
    if x == "" {
      assert s[0] == '/' && s[1..] == y;
    } else {
      hide Split;
      SplitConcat(x[1..], y);
      assert s[0] == x[0] && s[1..] == x[1..] + "/" + y;
      SplitCons(x);
      SplitCons(s);
      RegroupPieces(x[0], Split(x[1..], '/'), Split(y, '/'));
    }
  }

  lemma {:induction false} SlashedConcat(x: string, y: string)
    ensures Slashed(x + "/" + y) == Slashed(x) + "/" + Slashed(y)
  {
    var s := x + "/" + y;
    if x == "" {
      assert s[0] == '/' && s[1..] == y;
    } else {
      SlashedConcat(x[1..], y);
      assert s[0] == x[0] && s[1..] == x[1..] + "/" + y;
    }
  }

  /** Two accepted identifiers with a slash between them are one more. */
  lemma ValidConcat(x: string, y: string)
    requires ValidId(x) && ValidId(y)
    ensures ValidId(x + "/" + y)
  {
    var s := x + "/" + y;
    SlashedConcat(x, y);
    SplitConcat(Slashed(x), Slashed(y));
    hide Split, Slashed;
    assert s[0] == x[0] && (if |x| == 1 then s[1] == '/' else s[1] == x[1]);
  }

  /** The folder a request's filename goes to. */
  function FolderFor(filename: string, session: string): string {
    if UserNamed(filename) then "user" else session
  }

  lemma FolderInName(folder: string, filename: string)
    ensures UserNamed(folder + "/" + filename) <==> UserNamed(folder)
  {
    var name := folder + "/" + filename;
    assert name[|folder|] == '/' && forall i :: 0 <= i < |folder| ==> name[i] == folder[i];
    assert forall i :: 0 <= i < |USER_PREFIX| ==> USER_PREFIX[i] != '/';
    if UserNamed(name) {
      assert name[..|USER_PREFIX|] == USER_PREFIX;
      assert forall i :: 0 <= i < |USER_PREFIX| ==> name[i] == USER_PREFIX[i];
    }
  }

  lemma PathParts(app: string, user: string, filename: string, session: string)
    requires ValidId(app) && ValidId(user) && ValidId(session)
    ensures ArtifactPath(app, user, filename, session) ==
            Some(app + "/" + (user + "/" + (FolderFor(filename, session) + "/" + filename)))
  {
  }

  lemma SameFolder(u: string, rest: string)
    ensures u + "/" + rest == "user" + "/" + rest <==> u == "user"
  {
    var l, r := u + "/" + rest, "user" + "/" + rest;
    if l == r {
      assert |u| == 4 && u == l[..4] && "user" == r[..4];
    }
  }

  lemma Regroup(a: string, b: string, c: string)
    ensures (a + "/" + b) + "/" + c == a + "/" + (b + "/" + c)
  {
  }

  lemma SameTail(head: string, x: string, y: string)
    ensures head + "/" + x == head + "/" + y <==> x == y
  {
    assert (head + "/" + x)[|head| + 1..] == x && (head + "/" + y)[|head| + 1..] == y;
  }

  /**
   * An accepted app name with a slash inside: its artifact has the path of another request, in which
   * the two parts are app and user, and what was the user is the session.  That holds unless the new
   * filename would be the user's, which it is exactly when the old session is called like one.
   */
  lemma SlashedAppCollides(x: string, y: string, u: string, s: string, f: string)
    requires ValidId(x) && ValidId(y) && ValidId(u) && ValidId(s)
    ensures ArtifactPath(x + "/" + y, u, f, s).Some?
    ensures ArtifactPath(x + "/" + y, u, f, s) == ArtifactPath(x, y, FolderFor(f, s) + "/" + f, u) <==>
            !UserNamed(FolderFor(f, s)) || u == "user"
  {
    ValidConcat(x, y);
    hide ValidId, ArtifactPath, UserNamed;
    var folder := FolderFor(f, s);
    var name := folder + "/" + f;
    PathParts(x + "/" + y, u, f, s);
    PathParts(x, y, name, u);
    FolderInName(folder, f);
    Regroup(x, y, u + "/" + name);
    var folder' := FolderFor(name, u);
    SameTail(x, y + "/" + (u + "/" + name), y + "/" + (folder' + "/" + name));
    SameTail(y, u + "/" + name, folder' + "/" + name);
    SameFolder(u, name);
  }

  /** The same of an accepted user id with a slash inside. */
  lemma SlashedUserCollides(a: string, x: string, y: string, s: string, f: string)
    requires ValidId(a) && ValidId(x) && ValidId(y) && ValidId(s)
    ensures ArtifactPath(a, x + "/" + y, f, s).Some?
    ensures ArtifactPath(a, x + "/" + y, f, s) == ArtifactPath(a, x, FolderFor(f, s) + "/" + f, y) <==>
            !UserNamed(FolderFor(f, s)) || y == "user"
  {
    ValidConcat(x, y);
    hide ValidId, ArtifactPath, UserNamed;
    var folder := FolderFor(f, s);
    var name := folder + "/" + f;
    PathParts(a, x + "/" + y, f, s);
    PathParts(a, x, name, y);
    FolderInName(folder, f);
    Regroup(x, y, name);
    var folder' := FolderFor(name, y);
    SameTail(a, x + "/" + (y + "/" + name), x + "/" + (folder' + "/" + name));
    SameTail(x, y + "/" + name, folder' + "/" + name);
    SameFolder(y, name);
  }

  /** And of an accepted session id with a slash inside, for the filenames of a session. */
  lemma SlashedSessionCollides(a: string, u: string, x: string, y: string, f: string)
    requires ValidId(a) && ValidId(u) && ValidId(x) && ValidId(y) && !UserNamed(f)
    ensures ArtifactPath(a, u, f, x + "/" + y).Some?
    ensures ArtifactPath(a, u, f, x + "/" + y) == ArtifactPath(a, u, y + "/" + f, x) <==>
            !UserNamed(y) || x == "user"
  {
    ValidConcat(x, y);
    assert FolderFor(f, x + "/" + y) == x + "/" + y;
    hide ValidId, ArtifactPath, UserNamed;
    var name := y + "/" + f;
    PathParts(a, u, f, x + "/" + y);
    PathParts(a, u, name, x);
    FolderInName(y, f);
    Regroup(x, y, f);
    var folder' := FolderFor(name, x);
    SameTail(a, u + "/" + (x + "/" + name), u + "/" + (folder' + "/" + name));
    SameTail(u, x + "/" + name, folder' + "/" + name);
    SameFolder(x, name);
  }

  /** So no accepted identifier, in any place, is safe from sharing a path with a request whose ids have slashes. */
  lemma EveryIdTakesPart(id: string)
    requires ValidId(id)
    ensures ArtifactPath(id, "u", "s/f", "s") == ArtifactPath(id + "/u", "s", "f", "s") != None
    ensures ArtifactPath("a", id, "s/f", "s") == ArtifactPath("a", id + "/s", "f", "s") != None
    ensures ArtifactPath("a", "u", "s/f", id) == ArtifactPath("a", "u", "f", id + "/s") != None
  {
    SingleIsValid('a');
    SingleIsValid('u');
    SingleIsValid('s');
    hide ValidId, ArtifactPath;
    assert !UserNamed("s") && !UserNamed("f") && "s" + "/" + "f" == "s/f";
    assert id + "/" + "u" == id + "/u" && id + "/" + "s" == id + "/s";
    SlashedAppCollides(id, "u", "s", "s", "f");
    SlashedUserCollides("a", id, "s", "s", "f");
    SlashedSessionCollides("a", "u", id, "s", "f");
  }

  lemma SingleIsValid(c: char)
    requires IsAsciiLetter(c)
    ensures ValidId([c])
  {
    assert Slashed([c]) == [c] && Split([c], '/') == [[c]];
  }

  // ----- Listing by prefix -----

  function UserFolder(app: string, user: string, folder: string): string {
    app + "/" + (user + "/" + (folder + "/"))
  }

  /** What the listing takes from a stored path: the name under the session's folder or the user's. */
  function ListedName(path: string, app: string, user: string, session: string): Option<string> {
    var sessionPrefix, userPrefix := UserFolder(app, user, session), UserFolder(app, user, "user");
    if sessionPrefix <= path then Some(path[|sessionPrefix|..])
    else if userPrefix <= path then Some(path[|userPrefix|..])
    else None
  }

  /** The scopes whose names a session is shown: its own, the user's, and that of a session called `user`. */
  predicate Shown(scope: Scope, session: string) {
    ScopeFolder(scope) == session || ScopeFolder(scope) == "user"
  }

  lemma FolderPrefix(k: Key, app: string, user: string, folder: string)
    requires PlainKey(k) && '/' !in app && '/' !in user && '/' !in folder
    ensures var prefix := UserFolder(app, user, folder);
            (prefix <= PathText(k) <==> k.app == app && k.user == user && ScopeFolder(k.scope) == folder) &&
            (prefix <= PathText(k) ==> PathText(k)[|prefix|..] == k.filename)
  {
    hide *;
    var prefix, path := UserFolder(app, user, folder), PathText(k);
    if prefix <= path {
      PartsAgree(k, app, user, folder, path[|prefix|..]);
    }
    OwnPath(k);
  }

  lemma OwnPath(k: Key)
    ensures PathText(k) == UserFolder(k.app, k.user, ScopeFolder(k.scope)) + k.filename
  {
    hide UserFolder;
    FolderText(k.app, k.user, ScopeFolder(k.scope), k.filename);
  }

  lemma FolderText(app: string, user: string, folder: string, name: string)
    ensures UserFolder(app, user, folder) + name == app + "/" + (user + "/" + (folder + "/" + name))
  {
  }

  lemma PartsAgree(k: Key, app: string, user: string, folder: string, name: string)
    requires PlainKey(k) && '/' !in app && '/' !in user && '/' !in folder
    requires PathText(k) == UserFolder(app, user, folder) + name
    ensures k.app == app && k.user == user && ScopeFolder(k.scope) == folder && k.filename == name
  {
    hide ValidId, UserFolder;
    FolderText(app, user, folder, name);
    var own := ScopeFolder(k.scope) + "/" + k.filename;
    HeadsAgree(app, user + "/" + (folder + "/" + name), k.app, k.user + "/" + own);
    HeadsAgree(user, folder + "/" + name, k.user, own);
    HeadsAgree(folder, name, ScopeFolder(k.scope), k.filename);
  }

  /** The listing takes exactly the names of the scopes shown. */
  lemma ListedExactly(k: Key, app: string, user: string, session: string)
    requires PlainKey(k) && '/' !in app && '/' !in user && '/' !in session
    ensures ListedName(PathText(k), app, user, session) ==
            if k.app == app && k.user == user && Shown(k.scope, session) then Some(k.filename) else None
  {
    hide ValidId;
    FolderPrefix(k, app, user, session);
    FolderPrefix(k, app, user, "user");
    hide UserFolder, PathText, PlainKey;
  }

  // ----- Filenames as file paths -----

  function NonTrivial(pieces: seq<string>): seq<string> {
    if pieces == [] then []
    else (if pieces[0] == "" || pieces[0] == "." then [] else [pieces[0]]) + NonTrivial(pieces[1..])
  }

  function WithoutNamespace(filename: string): string {
    if UserNamed(filename) then filename[|USER_PREFIX|..] else filename
  }

  /** `resolve_scoped_artifact_path`: the segments below the scope's directory, or an error. */
  function Segments(filename: string): (r: Option<seq<string>>)
    ensures r.Some? ==> r.value != []
  {
    var stripped := Trim(WithoutNamespace(filename));
    if Rooted(stripped) || DriveQualified(stripped) || HasParentReference(stripped) then None
    else
      var relative := NonTrivial(Split(Slashed(stripped), '/'));
      Some(if relative == [] then ["artifact"] else relative)
  }

  predicate LeadsDown(piece: string) {
    piece != "" && piece != "."
  }

  lemma {:induction false} NonTrivialFilters(pieces: seq<string>)
    ensures NonTrivial(pieces) == Filter(pieces, LeadsDown)
  {
    if pieces != [] {
      NonTrivialFilters(pieces[1..]);
    }
  }

  /** What is left of a filename without its namespace and blanks around it. */
  function Stripped(filename: string): string {
    Trim(if "user:" <= filename then filename[5..] else filename)
  }

  /**
   * A filename is accepted exactly if what is left of it does not begin like a root or a drive and has no
   * two dots between slashes.
   */
  lemma AcceptedExact(filename: string)
    ensures var rest := Stripped(filename);
            Segments(filename).Some? <==>
            !(rest != "" && IsSlash(rest[0])) &&
            !(|rest| >= 2 && rest[1] == ':' && ('a' <= rest[0] <= 'z' || 'A' <= rest[0] <= 'Z')) &&
            !(exists i :: DotsAt(rest, i))
  {
    var rest := Stripped(filename);
    assert rest == Trim(WithoutNamespace(filename));
    ParentReferenceExact(rest);
    hide HasParentReference, DotsAt, NonTrivial, Trim;
  }

  /** `s` is `rest` with every backslash a slash. */
  predicate SlashesOnly(s: string, rest: string) {
    |s| == |rest| && forall i :: 0 <= i < |rest| ==> s[i] == if rest[i] == '\\' then '/' else rest[i]
  }

  /**
   * The segments of an accepted filename are the pieces between slashes of either kind of what is left of
   * it, in order, without those that are empty or a single dot, or `artifact` if there is no other.
   */
  lemma SegmentsExact(filename: string) returns (pieces: seq<string>, at: seq<int>)
    requires Segments(filename).Some?
    ensures SlashesOnly(Join(pieces, '/'), Stripped(filename)) && forall p :: p in pieces ==> '/' !in p
    ensures Picks(pieces, LeadsDown, if at == [] then [] else Segments(filename).value, at)
    ensures at == [] ==> Segments(filename).value == ["artifact"]
  {
    var rest := Stripped(filename);
    assert rest == Trim(WithoutNamespace(filename));
    pieces := Split(Slashed(rest), '/');
    SlashedAt(rest);
    SplitParts(Slashed(rest), '/');
    NonTrivialFilters(pieces);
    hide Split, Slashed, Join, HasParentReference, Filter, Trim, Picks;
    at := FilterExact(pieces, LeadsDown);
    PicksLength(pieces, LeadsDown, Filter(pieces, LeadsDown), at);
  }

  lemma PicksLength<T>(s: seq<T>, keep: T -> bool, r: seq<T>, at: seq<int>)
    requires Picks(s, keep, r, at)
    ensures |at| == |r|
  {
  }

  lemma {:induction false} NonTrivialPieces(pieces: seq<string>)
    ensures forall p :: p in NonTrivial(pieces) ==> p in pieces && p != "" && p != "."
  {
    if pieces != [] {
      NonTrivialPieces(pieces[1..]);
    }
  }

  /** No segment of an accepted filename leads anywhere but down. */
  lemma SegmentsDescend(filename: string)
    requires Segments(filename).Some?
    ensures forall s :: s in Segments(filename).value ==> s != "" && s != "." && s != ".."
  {
    NonTrivialPieces(Split(Slashed(Trim(WithoutNamespace(filename))), '/'));
  }

  lemma {:induction false} SlashedHolds(s: string, c: char)
    requires c != '/' && c != '\\'
    ensures c in Slashed(s) <==> c in s
  {
    if s != "" {
      SlashedHolds(s[1..], c);
      assert s == [s[0]] + s[1..];
    }
  }

  lemma {:induction false} NonTrivialHolds(pieces: seq<string>, c: char)
    requires c != '.'
    ensures Holds(NonTrivial(pieces), c) <==> Holds(pieces, c)
  {
    if pieces != [] {
      var first := if pieces[0] == "" || pieces[0] == "." then [] else [pieces[0]];
      NonTrivialHolds(pieces[1..], c);
      assert pieces == [pieces[0]] + pieces[1..];
      HoldsConcat([pieces[0]], pieces[1..], c);
      HoldsConcat(first, NonTrivial(pieces[1..]), c);
      HoldsOne(pieces[0], c);
    }
  }

  /** The segments of an accepted filename hold a NUL exactly if the filename does. */
  lemma SegmentsHoldNul(filename: string)
    requires Segments(filename).Some?
    ensures Holds(Segments(filename).value, '\0') <==> '\0' in filename
  {
    var stripped := Trim(WithoutNamespace(filename));
    if UserNamed(filename) {
      assert filename == USER_PREFIX + filename[|USER_PREFIX|..];
    }
    TrimHolds(WithoutNamespace(filename), '\0');
    SlashedHolds(stripped, '\0');
    SplitHolds(Slashed(stripped), '/', '\0');
    NonTrivialHolds(Split(Slashed(stripped), '/'), '\0');
    HoldsOne("artifact", '\0');
  }

  function LowerAscii(c: char): char {
    if 'A' <= c <= 'Z' then (c as int + 32) as char else c
  }

  /** `metadata.json` in any casing. */
  predicate Reserved(name: string) {
    |name| == |"metadata.json"| && forall i :: 0 <= i < |name| ==> LowerAscii(name[i]) == "metadata.json"[i]
  }

  /** The filename is what its own segments spell, none of them is `versions` or has a NUL, and it may be saved. */
  predicate NormalName(filename: string) {
    var segments := Segments(filename);
    segments.Some? && '\0' !in filename &&
    filename == (if UserNamed(filename) then USER_PREFIX else "") + Join(segments.value, '/') &&
    "versions" !in segments.value && !Reserved(segments.value[|segments.value| - 1])
  }

  /** The keys both stores handle alike. */
  predicate GoodKey(k: Key) {
    PlainKey(k) && k.scope != SessionScope("user") && NormalName(k.filename)
  }
}
