/** References to artifact versions, printed as URIs and parsed back. */
module ArtifactUri {
  import opened Wrappers
  import opened Decimals

  datatype Reference = Reference(app: string, user: string, session: Option<string>, filename: string, version: nat)

  /** One past the greatest `u64`. */
  const U64_LIMIT := 0x1_0000_0000_0000_0000

  // ----- Printing -----

  function ScopeText(session: Option<string>): string {
    if session.Some? then "/sessions/" + session.value else ""
  }

  /** The URI text around the given parts. */
  function UriText(app: string, user: string, session: Option<string>, filename: string, digits: string): string {
    "artifact://apps/" + app + ("/users/" + user + (ScopeText(session) + FileText(filename, digits)))
  }

  function FileText(filename: string, digits: string): string {
    "/artifacts/" + (filename + "/versions/" + digits)
  }

  /** `get_artifact_uri`: an empty session id prints like none. */
  function Print(app: string, user: string, filename: string, version: nat, session: Option<string>): string {
    UriText(app, user, if session == Some("") then None else session, filename, Digits(version))
  }

  // ----- The patterns -----

  /** What `[^/]+` matches. */
  predicate Segment(s: string) {
    s != "" && '/' !in s
  }

  /** What `.+` matches. */
  predicate Name(s: string) {
    s != "" && '\n' !in s
  }

  /** What the capture groups of the two patterns hold; only the session-scoped one has a session. */
  datatype Groups = Groups(app: string, user: string, session: Option<string>, filename: string, digits: string)

  /**
   * `uri` matches the session-scoped or, without a session, the user-scoped pattern, with these groups.
   * A version written in other digits than ASCII also matches `\d+`; no such text is a `u64`, so that
   * its URI does not parse either way.
   */
  predicate Matches(uri: string, g: Groups) {
    uri == UriText(g.app, g.user, g.session, g.filename, g.digits) &&
    Segment(g.app) && Segment(g.user) && (g.session.Some? ==> Segment(g.session.value)) &&
    Name(g.filename) && g.digits != "" && AllDigits(g.digits)
  }

  // ----- Matching -----

  function FirstSlash(s: string): (i: nat)
    ensures i <= |s| && (forall j :: 0 <= j < i ==> s[j] != '/') && (i < |s| ==> s[i] == '/')
  {
    if s == "" || s[0] == '/' then 0
    else
      var rest := s[1..];
      var i := FirstSlash(rest);
      assert forall j :: 0 < j <= i ==> s[j] == rest[j - 1];
      i + 1
  }

  /** One past the last slash, or zero. */
  function AfterLastSlash(s: string): (i: nat)
    ensures i <= |s| && (forall j :: i <= j < |s| ==> s[j] != '/') && (i > 0 ==> s[i - 1] == '/')
  {
    if s == "" then 0 else if s[|s| - 1] == '/' then |s| else AfterLastSlash(s[..|s| - 1])
  }

  /** Matches a literal and the segment after it, as far as that goes; gives the segment and the rest. */
  function TakeField(s: string, literal: string): Option<(string, string)> {
    if !(literal <= s) then None
    else
      var rest := s[|literal|..];
      var i := FirstSlash(rest);
      if i == 0 then None else Some((rest[..i], rest[i..]))
  }

  /** Matches the artifact part up to the end; gives the filename and the version digits. */
  function TakeFile(s: string): Option<(string, string)> {
    if !("/artifacts/" <= s) then None
    else
      var rest := s[|"/artifacts/"|..];
      var i := AfterLastSlash(rest);
      var (front, digits) := (rest[..i], rest[i..]);
      var k := |front| - |"/versions/"|;
      if k <= 0 || front[k..] != "/versions/" || '\n' in front[..k] || digits == "" || !AllDigits(digits) then None
      else Some((front[..k], digits))
  }

  function MatchScope(rest: string, scoped: bool): Option<(Option<string>, (string, string))> {
    if scoped then
      match TakeField(rest, "/sessions/")
      case None => None
      case Some((session, tail)) =>
        (match TakeFile(tail) case None => None case Some(file) => Some((Some(session), file)))
    else
      match TakeFile(rest) case None => None case Some(file) => Some((None, file))
  }

  /** Matches the session-scoped pattern if `scoped`, else the user-scoped one. */
  function Match(uri: string, scoped: bool): Option<Groups> {
    match TakeField(uri, "artifact://apps/")
    case None => None
    case Some((app, rest)) =>
      match TakeField(rest, "/users/")
      case None => None
      case Some((user, tail)) =>
        match MatchScope(tail, scoped)
        case None => None
        case Some((session, file)) => Some(Groups(app, user, session, file.0, file.1))
  }

  /** `parse` of a version followed by `ok()?`. */
  function ToReference(g: Groups): Option<Reference> {
    if AllDigits(g.digits) && ValueOf(g.digits) < U64_LIMIT then
      Some(Reference(g.app, g.user, g.session, g.filename, ValueOf(g.digits)))
    else None
  }

  /** `parse_artifact_uri`. */
  function Parse(uri: string): Option<Reference> {
    if uri == "" || !("artifact://" <= uri) then None
    else
      match Match(uri, true)
      case Some(g) => ToReference(g)
      case None =>
        match Match(uri, false)
        case Some(g) => ToReference(g)
        case None => None
  }

  // ----- The matcher finds exactly the matches -----

  lemma SplitsAt(a: string, b: string, c: string)
    ensures (a + b + c)[|a|..] == b + c && a <= a + b + c
  {
  }

  lemma FirstSlashAt(segment: string, rest: string)
    requires '/' !in segment && (rest == "" || rest[0] == '/')
    ensures FirstSlash(segment + rest) == |segment|
  {
    var s := segment + rest;
    var i := FirstSlash(s);
    assert forall j :: 0 <= j < |segment| ==> s[j] == segment[j] && segment[j] in segment;
    assert rest != "" ==> s[|segment|] == rest[0];
  }

  lemma AfterLastSlashAt(front: string, digits: string)
    requires '/' !in digits && front != "" && front[|front| - 1] == '/'
    ensures AfterLastSlash(front + digits) == |front|
  {
    var s := front + digits;
    var i := AfterLastSlash(s);
    assert forall j :: |front| <= j < |s| ==> s[j] == digits[j - |front|] && digits[j - |front|] in digits;
    assert s[|front| - 1] == front[|front| - 1];
  }

  lemma FieldExact(s: string, literal: string, segment: string, rest: string)
    ensures TakeField(s, literal) == Some((segment, rest)) <==>
            s == literal + segment + rest && Segment(segment) && (rest == "" || rest[0] == '/')
  {
    if s == literal + segment + rest && Segment(segment) && (rest == "" || rest[0] == '/') {
      SplitsAt(literal, segment, rest);
      FirstSlashAt(segment, rest);
      assert (segment + rest)[..|segment|] == segment && (segment + rest)[|segment|..] == rest;
    }
    if TakeField(s, literal) == Some((segment, rest)) {
      assert s == literal + s[|literal|..];
      assert s[|literal|..] == segment + rest;
      assert literal + (segment + rest) == literal + segment + rest;
    }
  }

  lemma DigitsNoSlash(digits: string)
    requires AllDigits(digits)
    ensures '/' !in digits
  {
  }

  lemma FileExact(s: string, filename: string, digits: string)
    ensures TakeFile(s) == Some((filename, digits)) <==>
            s == FileText(filename, digits) && Name(filename) && digits != "" && AllDigits(digits)
  {
    if s == FileText(filename, digits) && Name(filename) && digits != "" && AllDigits(digits) {
      TakesFile(filename, digits);
    }
    if TakeFile(s) == Some((filename, digits)) {
      TakenFile(s, filename, digits);
    }
  }

  lemma TakesFile(filename: string, digits: string)
    requires Name(filename) && digits != "" && AllDigits(digits)
    ensures TakeFile(FileText(filename, digits)) == Some((filename, digits))
  {
    var s, front := FileText(filename, digits), filename + "/versions/";
    assert s[|"/artifacts/"|..] == front + digits;
    DigitsNoSlash(digits);
    AfterLastSlashAt(front, digits);
    hide AfterLastSlash, AllDigits;
    assert (front + digits)[..|front|] == front && (front + digits)[|front|..] == digits;
    assert front[|filename|..] == "/versions/" && front[..|filename|] == filename;
  }

  lemma TakenFile(s: string, filename: string, digits: string)
    requires TakeFile(s) == Some((filename, digits))
    ensures s == FileText(filename, digits) && Name(filename) && digits != "" && AllDigits(digits)
  {
    hide AfterLastSlash, AllDigits;
    var rest := s[|"/artifacts/"|..];
    var i := AfterLastSlash(rest);
    assert s == "/artifacts/" + rest && rest == rest[..i] + rest[i..];
    assert rest[..i] == filename + "/versions/";
  }

  lemma ScopeExact(rest: string, session: Option<string>, filename: string, digits: string)
    ensures MatchScope(rest, session.Some?) == Some((session, (filename, digits))) <==>
            rest == ScopeText(session) + FileText(filename, digits) &&
            (session.Some? ==> Segment(session.value)) && Name(filename) && digits != "" && AllDigits(digits)
  {
    hide TakeField, TakeFile;
    var file := FileText(filename, digits);
    match session
    case Some(id) =>
      FieldExact(rest, "/sessions/", id, file);
      FileExact(file, filename, digits);
      match TakeField(rest, "/sessions/") {
        case Some((found, tail)) =>
          FieldExact(rest, "/sessions/", found, tail);
          FileExact(tail, filename, digits);
        case None =>
      }
    case None =>
      FileExact(rest, filename, digits);
      assert "" + file == file;
  }

  /** The matcher finds groups exactly when the pattern matches with them; so they are unique. */
  lemma MatchExact(uri: string, g: Groups)
    ensures Match(uri, g.session.Some?) == Some(g) <==> Matches(uri, g)
  {
    var tail := ScopeText(g.session) + FileText(g.filename, g.digits);
    var rest := "/users/" + g.user + tail;
    assert tail[0] == '/' && rest[0] == '/' by { TailStart(g); }
    hide TakeField, TakeFile, MatchScope, FileText, ScopeText;
    FieldExact(uri, "artifact://apps/", g.app, rest);
    FieldExact(rest, "/users/", g.user, tail);
    ScopeExact(tail, g.session, g.filename, g.digits);
    if Match(uri, g.session.Some?) == Some(g) {
      var first := TakeField(uri, "artifact://apps/").value;
      FieldExact(uri, "artifact://apps/", first.0, first.1);
      var second := TakeField(first.1, "/users/").value;
      FieldExact(first.1, "/users/", second.0, second.1);
      ScopeExact(second.1, g.session, g.filename, g.digits);
    }
  }

  lemma TailStart(g: Groups)
    ensures var tail := ScopeText(g.session) + FileText(g.filename, g.digits);
            tail != "" && tail[0] == '/'
  {
  }

  lemma MatchKind(uri: string, scoped: bool)
    ensures Match(uri, scoped).Some? ==> Match(uri, scoped).value.session.Some? == scoped
  {
  }

  lemma OneScope(tail: string)
    ensures MatchScope(tail, true).None? || MatchScope(tail, false).None?
  {
    if "/sessions/" <= tail {
      assert tail[1] == "/sessions/"[1];
    }
    if "/artifacts/" <= tail {
      assert tail[1] == "/artifacts/"[1];
    }
  }

  /** No URI matches both patterns. */
  lemma OnePattern(uri: string)
    ensures Match(uri, true).None? || Match(uri, false).None?
  {
    hide TakeField, TakeFile, MatchScope;
    match TakeField(uri, "artifact://apps/") {
      case Some((app, rest)) =>
        match TakeField(rest, "/users/") {
          case Some((user, tail)) => OneScope(tail);
          case None =>
        }
      case None =>
    }
  }

  lemma Scheme(g: Groups)
    ensures var uri := UriText(g.app, g.user, g.session, g.filename, g.digits);
            uri != "" && "artifact://" <= uri
  {
    var uri := UriText(g.app, g.user, g.session, g.filename, g.digits);
    assert uri[..|"artifact://apps/"|] == "artifact://apps/";
    assert "artifact://apps/"[..|"artifact://"|] == "artifact://";
    assert uri[..|"artifact://"|] == "artifact://apps/"[..|"artifact://"|];
  }

  /** Parsing finds the reference of the one match there is. */
  lemma ParseOfMatch(uri: string, g: Groups)
    requires Matches(uri, g)
    ensures Parse(uri) == ToReference(g)
  {
    MatchExact(uri, g);
    OnePattern(uri);
    Scheme(g);
    hide Match, UriText;
  }

  lemma MatchOfParse(uri: string) returns (g: Groups)
    requires Parse(uri).Some?
    ensures Matches(uri, g) && Parse(uri) == ToReference(g)
  {
    g := if Match(uri, true).Some? then Match(uri, true).value else Match(uri, false).value;
    MatchKind(uri, true);
    MatchKind(uri, false);
    MatchExact(uri, g);
  }

  // ----- The main results -----

  /**
   * Printing and parsing give back the parts exactly when the ids are non-empty and slash-free, the
   * filename is non-empty and on one line, and the version is a `u64`; the filename may itself
   * contain `/artifacts/` or `/versions/7`.
   */
  lemma RoundTrip(r: Reference)
    ensures Parse(Print(r.app, r.user, r.filename, r.version, r.session)) == Some(r) <==>
            Segment(r.app) && Segment(r.user) && (r.session.Some? ==> Segment(r.session.value)) &&
            Name(r.filename) && r.version < U64_LIMIT
  {
    var uri := Print(r.app, r.user, r.filename, r.version, r.session);
    ValueOfDigits(r.version);
    if Segment(r.app) && Segment(r.user) && (r.session.Some? ==> Segment(r.session.value)) && Name(r.filename) {
      var g := Groups(r.app, r.user, r.session, r.filename, Digits(r.version));
      assert Matches(uri, g);
      ParseOfMatch(uri, g);
    }
    if Parse(uri) == Some(r) {
      var g := MatchOfParse(uri);
    }
  }

  /** An empty session id does not come back: its URI is the user-scoped one. */
  lemma EmptySessionIsNone(app: string, user: string, filename: string, version: nat)
    requires Segment(app) && Segment(user) && Name(filename) && version < U64_LIMIT
    ensures Parse(Print(app, user, filename, version, Some(""))) == Some(Reference(app, user, None, filename, version))
  {
    RoundTrip(Reference(app, user, None, filename, version));
  }

  /** Printing a parsed reference gives the URI back up to leading zeros of the version. */
  lemma PrintParsed(uri: string) returns (stem: string, digits: string)
    requires Parse(uri).Some?
    ensures var r := Parse(uri).value;
            var printed := Print(r.app, r.user, r.filename, r.version, r.session);
            uri == stem + digits && printed == stem + Digits(r.version) &&
            digits != "" && AllDigits(digits) && StripZeros(digits) == StripZeros(Digits(r.version)) &&
            (printed == uri <==> digits == "0" || digits[0] != '0')
  {
    var g := MatchOfParse(uri);
    var r := Parse(uri).value;
    digits := g.digits;
    stem := UriText(g.app, g.user, g.session, g.filename, "");
    DigitsOfValue(digits);
    ValueOfDigits(r.version);
    StemAnd(g, digits);
    StemAnd(g, Digits(r.version));
    SameDigits(digits);
    assert stem + digits == stem + Digits(r.version) ==> digits == Digits(r.version) by {
      assert (stem + digits)[|stem|..] == digits && (stem + Digits(r.version))[|stem|..] == Digits(r.version);
    }
  }

  lemma StemAnd(g: Groups, digits: string)
    ensures UriText(g.app, g.user, g.session, g.filename, digits) ==
            UriText(g.app, g.user, g.session, g.filename, "") + digits
  {
    assert FileText(g.filename, digits) == FileText(g.filename, "") + digits;
    var s := ScopeText(g.session);
    assert s + FileText(g.filename, digits) == s + FileText(g.filename, "") + digits;
  }

  /** A digit string is the printed form of its value unless it has a zero too many in front. */
  lemma SameDigits(digits: string)
    requires digits != "" && AllDigits(digits)
    ensures digits == Digits(ValueOf(digits)) <==> digits == "0" || digits[0] != '0'
  {
    DigitsOfValue(digits);
    ValueOfDigits(ValueOf(digits));
    var printed := Digits(ValueOf(digits));
    assert StripZeros("0") == StripZeros("0"[1..]) == "";
    if digits == "0" {
      assert digits[..0] == "";
    }
  }
}
