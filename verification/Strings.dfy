/** String splitting and trimming. */
module Strings {

  /** Rust's `str::split(sep)`: one more piece than there are separators. */
  function Split(s: string, sep: char): (pieces: seq<string>)
    ensures |pieces| >= 1
  {
    if s == "" then [""]
    else
      var rest := Split(s[1..], sep);
      if s[0] == sep then [""] + rest else [[s[0]] + rest[0]] + rest[1..]
  }

  /** Some piece holds `c`. */
  predicate Holds(pieces: seq<string>, c: char) {
    exists piece :: piece in pieces && c in piece
  }

  lemma HoldsConcat(a: seq<string>, b: seq<string>, c: char)
    ensures Holds(a + b, c) <==> Holds(a, c) || Holds(b, c)
  {
    if piece :| piece in a && c in piece {
      assert piece in a + b;
    }
    if piece :| piece in b && c in piece {
      assert piece in a + b;
    }
  }

  /** Splitting loses the separators and nothing else. */
  lemma {:induction false} SplitHolds(s: string, sep: char, c: char)
    requires c != sep
    ensures Holds(Split(s, sep), c) <==> c in s
  {
    if s != "" {
      var rest, first := Split(s[1..], sep), if s[0] == sep then "" else [s[0]];
      SplitHolds(s[1..], sep, c);
      assert rest == [rest[0]] + rest[1..];
      HoldsConcat([rest[0]], rest[1..], c);
      HoldsOne(rest[0], c);
      if s[0] == sep {
        HoldsConcat([""], rest, c);
        HoldsOne("", c);
      } else {
        HoldsConcat([[s[0]] + rest[0]], rest[1..], c);
        HoldsOne([s[0]] + rest[0], c);
      }
      assert s == [s[0]] + s[1..];
    }
  }

  lemma HoldsOne(piece: string, c: char)
    ensures Holds([piece], c) <==> c in piece
  {
    assert piece in [piece];
  }

  /** `p` stands in `s` at `i`, between separators or the ends. */
  ghost predicate StandsAt(s: string, p: string, sep: char, i: int) {
    0 <= i <= i + |p| <= |s| && s[i..i + |p|] == p && (i > 0 ==> s[i - 1] == sep) && (i + |p| < |s| ==> s[i + |p|] == sep)
  }

  ghost predicate StandsLater(s: string, p: string, sep: char) {
    exists i :: i > 0 && StandsAt(s, p, sep, i)
  }

  lemma StandsShifted(s: string, p: string, sep: char, i: int)
    requires s != "" && i >= 1
    ensures StandsAt(s, p, sep, i + 1) <==> StandsAt(s[1..], p, sep, i)
    ensures s[0] == sep ==> (StandsAt(s, p, sep, 1) <==> StandsAt(s[1..], p, sep, 0))
    ensures s[0] != sep ==> !StandsAt(s, p, sep, 1)
  {
    if i + |p| <= |s[1..]| {
      assert s[1..][i..i + |p|] == s[i + 1..i + 1 + |p|];
    }
    if |p| <= |s[1..]| {
      assert s[1..][0..|p|] == s[1..1 + |p|];
    }
  }

  lemma LaterShifted(s: string, p: string, sep: char)
    requires s != ""
    ensures StandsLater(s, p, sep) <==>
            StandsLater(s[1..], p, sep) || (s[0] == sep && StandsAt(s[1..], p, sep, 0))
  {
    hide StandsAt;
    StandsShifted(s, p, sep, 1);
    if i :| i > 0 && StandsAt(s, p, sep, i) {
      if i > 1 { StandsShifted(s, p, sep, i - 1); }
    }
    if i :| i > 0 && StandsAt(s[1..], p, sep, i) {
      StandsShifted(s, p, sep, i);
      assert i + 1 > 0 && StandsAt(s, p, sep, i + 1);
    }
  }

  lemma {:induction false} SplitMembers(s: string, p: string, sep: char)
    requires sep !in p
    ensures p == Split(s, sep)[0] <==> StandsAt(s, p, sep, 0)
    ensures p in Split(s, sep)[1..] <==> StandsLater(s, p, sep)
  {
    if s != "" {
      var rest := Split(s[1..], sep);
      SplitMembers(s[1..], p, sep);
      LaterShifted(s, p, sep);
      if p != "" {
        SplitMembers(s[1..], p[1..], sep);
      }
      HeadStands(s, p, sep, rest[0]);
      hide StandsAt, StandsLater;
      assert rest == [rest[0]] + rest[1..];
    }
  }

  lemma HeadStands(s: string, p: string, sep: char, head: string)
    requires s != "" && sep !in p && (p != "" ==> (p[1..] == head <==> StandsAt(s[1..], p[1..], sep, 0)))
    ensures s[0] == sep ==> (p == "" <==> StandsAt(s, p, sep, 0))
    ensures s[0] != sep ==> (p == [s[0]] + head <==> StandsAt(s, p, sep, 0))
  {
    if p != "" {
      assert p[0] in p && p == [p[0]] + p[1..] && s == [s[0]] + s[1..];
      if |p| <= |s| {
        assert s[0..|p|] == [s[0]] + s[1..][0..|p| - 1];
      }
    }
  }

  function Join(pieces: seq<string>, sep: char): string {
    if pieces == [] then ""
    else if |pieces| == 1 then pieces[0]
    else pieces[0] + [sep] + Join(pieces[1..], sep)
  }

  /** `pieces` are what stands between the separators of `s`. */
  ghost predicate Parts(s: string, sep: char, pieces: seq<string>) {
    pieces != [] && (forall i :: 0 <= i < |pieces| ==> sep !in pieces[i]) && Join(pieces, sep) == s
  }

  lemma JoinFirst(first: string, rest: seq<string>, sep: char)
    requires rest != []
    ensures Join([first] + rest, sep) == first + [sep] + Join(rest, sep)
  {
    assert ([first] + rest)[1..] == rest;
  }

  lemma JoinLonger(c: char, pieces: seq<string>, sep: char)
    requires pieces != []
    ensures Join([[c] + pieces[0]] + pieces[1..], sep) == [c] + Join(pieces, sep)
  {
    if |pieces| > 1 {
      JoinFirst([c] + pieces[0], pieces[1..], sep);
    } else {
      assert [[c] + pieces[0]] + pieces[1..] == [[c] + pieces[0]];
    }
  }

  /** Splitting gives these pieces, and joining them gives the text back. */
  lemma {:induction false} SplitParts(s: string, sep: char)
    ensures Parts(s, sep, Split(s, sep))
  {
    if s != "" {
      var rest := Split(s[1..], sep);
      SplitParts(s[1..], sep);
      if s[0] == sep {
        JoinFirst("", rest, sep);
        assert "" + [sep] + s[1..] == s;
      } else {
        JoinLonger(s[0], rest, sep);
        assert [s[0]] + s[1..] == s;
      }
    }
  }

  /** No other list of pieces does. */
  lemma {:induction false} SplitUnique(s: string, sep: char, pieces: seq<string>)
    requires Parts(s, sep, pieces)
    ensures pieces == Split(s, sep)
    decreases |s|
  {
    var first, rest := pieces[0], pieces[1..];
    assert pieces == [first] + rest;
    if first != "" {
      assert s[0] == first[0] && s[0] != sep by {
        if rest != [] { JoinFirst(first, rest, sep); }
      }
      var shorter := [first[1..]] + rest;
      assert shorter[0] == first[1..] && shorter[1..] == rest;
      assert [s[0]] + first[1..] == first;
      JoinLonger(s[0], shorter, sep);
      assert Join(pieces, sep) == [s[0]] + Join(shorter, sep);
      assert Join(shorter, sep) == s[1..];
      SplitUnique(s[1..], sep, shorter);
    } else if rest != [] {
      JoinFirst("", rest, sep);
      assert s == [sep] + Join(rest, sep);
      assert Join(rest, sep) == s[1..];
      SplitUnique(s[1..], sep, rest);
    }
  }

  /** The part of a branch segment after its first `@`: the run id it is tagged with. */
  function RunId(segment: string): seq<string> {
    if segment == "" then []
    else if segment[0] == '@' then [segment[1..]]
    else RunId(segment[1..])
  }

  function RunIds(segments: seq<string>): seq<string> {
    if segments == [] then [] else RunId(segments[0]) + RunIds(segments[1..])
  }

  /** The run ids tagged along a dotted branch path; the empty path has none. */
  function BranchRunIds(branch: string): seq<string> {
    if branch == "" then [] else RunIds(Split(branch, '.'))
  }

  /** The segment is a name without `@`, then `@`, then the id. */
  ghost predicate TaggedWith(segment: string, id: string) {
    exists name :: '@' !in name && segment == name + "@" + id
  }

  lemma AtFirst(name: string, id: string)
    ensures '@' !in name ==> ((name + "@" + id)[0] == '@' <==> name == "")
  {
    assert name != "" ==> (name + "@" + id)[0] == name[0] && name[0] in name;
  }

  lemma {:induction false} RunIdExact(segment: string, id: string)
    ensures id in RunId(segment) <==> TaggedWith(segment, id)
  {
    if segment == "" {
    } else if segment[0] == '@' {
      assert segment == "" + "@" + segment[1..];
      if name :| '@' !in name && segment == name + "@" + id {
        AtFirst(name, id);
        assert segment[1..] == id;
      }
    } else {
      RunIdExact(segment[1..], id);
      if name :| '@' !in name && segment[1..] == name + "@" + id {
        assert segment == ([segment[0]] + name) + "@" + id;
      }
      if name :| '@' !in name && segment == name + "@" + id {
        assert name != "" && name[0] == segment[0];
        assert segment[1..] == name[1..] + "@" + id;
      }
    }
  }

  lemma {:induction false} RunIdsExact(segments: seq<string>, id: string)
    ensures id in RunIds(segments) <==> exists k :: 0 <= k < |segments| && TaggedWith(segments[k], id)
  {
    if segments != [] {
      hide RunId, TaggedWith;
      RunIdExact(segments[0], id);
      RunIdsExact(segments[1..], id);
      if k :| 0 <= k < |segments| && TaggedWith(segments[k], id) {
        assert k > 0 ==> segments[1..][k - 1] == segments[k];
      }
      if k :| 0 <= k < |segments[1..]| && TaggedWith(segments[1..][k], id) {
        assert segments[k + 1] == segments[1..][k];
      }
    }
  }

  /** Some dot-separated segment of the branch is tagged with `id`. */
  ghost predicate BranchTagged(branch: string, id: string) {
    exists segments, k :: Parts(branch, '.', segments) && 0 <= k < |segments| && TaggedWith(segments[k], id)
  }

  lemma BranchRunIdsExact(branch: string, id: string)
    ensures id in BranchRunIds(branch) <==> BranchTagged(branch, id)
  {
    SplitParts(branch, '.');
    RunIdsExact(Split(branch, '.'), id);
    if segments, k :| Parts(branch, '.', segments) && 0 <= k < |segments| && TaggedWith(segments[k], id) {
      SplitUnique(branch, '.', segments);
    }
    if branch == "" {
      assert Split(branch, '.') == [""];
      RunIdExact("", id);
    }
  }

  /** The characters Rust's `trim` removes. */
  predicate IsWhite(c: char) {
    '\t' <= c <= '\r' || c == ' ' || c == '\U{85}' || c == '\U{A0}' || c == '\U{1680}' ||
    '\U{2000}' <= c <= '\U{200A}' || c == '\U{2028}' || c == '\U{2029}' || c == '\U{202F}' ||
    c == '\U{205F}' || c == '\U{3000}'
  }

  function Trim(s: string): string {
    if s == "" then s
    else if IsWhite(s[0]) then Trim(s[1..])
    else if IsWhite(s[|s| - 1]) then Trim(s[..|s| - 1])
    else s
  }

  lemma Rejoin(c: char, s: string, front: string, middle: string, back: string)
    requires s == front + middle + back
    ensures [c] + s == ([c] + front) + middle + back
  {
  }

  /** Nothing but white space is lost, and only at the ends, up to characters that are none. */
  lemma {:induction false} TrimExact(s: string) returns (front: string, back: string)
    ensures s == front + Trim(s) + back
    ensures (forall c :: c in front ==> IsWhite(c)) && (forall c :: c in back ==> IsWhite(c))
    ensures Trim(s) != "" ==> !IsWhite(Trim(s)[0]) && !IsWhite(Trim(s)[|Trim(s)| - 1])
  {
    hide IsWhite;
    front, back := "", "";
    if s == "" {
    } else if IsWhite(s[0]) {
      var rest;
      rest, back := TrimExact(s[1..]);
      front := [s[0]] + rest;
      Rejoin(s[0], s[1..], rest, Trim(s), back);
    } else if IsWhite(s[|s| - 1]) {
      var n := |s| - 1;
      var rest;
      front, rest := TrimExact(s[..n]);
      back := rest + [s[n]];
      assert s == s[..n] + [s[n]];
      assert front + Trim(s) + back == (front + Trim(s) + rest) + [s[n]];
    }
  }

  lemma {:induction false} TrimHolds(s: string, c: char)
    requires !IsWhite(c)
    ensures c in Trim(s) <==> c in s
  {
    if s != "" {
      if IsWhite(s[0]) {
        TrimHolds(s[1..], c);
        assert s == [s[0]] + s[1..];
      } else if IsWhite(s[|s| - 1]) {
        TrimHolds(s[..|s| - 1], c);
        assert s == s[..|s| - 1] + [s[|s| - 1]];
      }
    }
  }
}
