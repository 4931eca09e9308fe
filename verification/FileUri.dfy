/** `file://` URIs of artifact payloads: percent-encoding byte by byte (section 2 of RFC 3986). */
module FileUri {
  import opened Wrappers
  import opened Base64
  import Utf8

  /** The bytes that stand for themselves. */
  predicate Unreserved(b: Byte) {
    'A' as int <= b <= 'Z' as int || 'a' as int <= b <= 'z' as int || '0' as int <= b <= '9' as int ||
    b == '-' as int || b == '_' as int || b == '.' as int || b == '~' as int
  }

  /** An upper-case hexadecimal digit. */
  function HexDigit(d: nat): char
    requires d < 16
  {
    if d < 10 then ('0' as int + d) as char else ('A' as int + (d - 10)) as char
  }

  function UriByte(b: Byte): string {
    if Unreserved(b) then [b as char] else ['%', HexDigit(b / 16), HexDigit(b % 16)]
  }

  function UriSegment(segment: seq<Byte>): string {
    if segment == [] then "" else UriByte(segment[0]) + UriSegment(segment[1..])
  }

  function UriPath(path: seq<seq<Byte>>): string {
    if path == [] then "" else "/" + (UriSegment(path[0]) + UriPath(path[1..]))
  }

  /** The bytes of a name as text: what is not UTF-8 in it is replaced. */
  function Printed(path: seq<seq<Byte>>): (r: seq<seq<Byte>>)
    ensures |r| == |path| && forall i :: 0 <= i < |path| ==> r[i] == Utf8.Encode(Utf8.Lossy(path[i]))
  {
    if path == [] then [] else [Utf8.Encode(Utf8.Lossy(path[0]))] + Printed(path[1..])
  }

  /** `path_to_file_uri` of an absolute path without `.` and `..`; names are any bytes. */
  function PathToFileUri(path: seq<seq<Byte>>): string {
    "file://" + UriPath(Printed(path))
  }

  // ----- Reading the URI back -----

  function HexValue(c: char): Option<nat> {
    if '0' <= c <= '9' then Some(c as int - '0' as int)
    else if 'A' <= c <= 'F' then Some(c as int - 'A' as int + 10)
    else None
  }

  /** The first byte that `s` encodes, and what follows. */
  function ReadByte(s: string): (r: Option<(Byte, string)>)
    requires s != ""
    ensures r.Some? ==> |r.value.1| < |s|
  {
    if s[0] == '%' then
      if |s| < 3 || HexValue(s[1]).None? || HexValue(s[2]).None? then None
      else Some((16 * HexValue(s[1]).value + HexValue(s[2]).value, s[3..]))
    else if s[0] as int < 256 && Unreserved(s[0] as int) then Some((s[0] as int, s[1..]))
    else None
  }

  /** The segment that `s` begins with, and what follows from the next slash on. */
  function ReadSegment(s: string): (r: Option<(seq<Byte>, string)>)
    ensures r.Some? ==> |r.value.1| <= |s|
    decreases |s|
  {
    if s == "" || s[0] == '/' then Some(([], s))
    else
      match ReadByte(s)
      case None => None
      case Some((b, rest)) =>
        match ReadSegment(rest)
        case None => None
        case Some((more, tail)) => Some(([b] + more, tail))
  }

  function ReadPath(s: string): Option<seq<seq<Byte>>>
    decreases |s|
  {
    if s == "" then Some([])
    else if s[0] != '/' then None
    else
      match ReadSegment(s[1..])
      case None => None
      case Some((segment, tail)) =>
        match ReadPath(tail) case None => None case Some(more) => Some([segment] + more)
  }

  function ReadFileUri(uri: string): Option<seq<seq<Byte>>> {
    if "file://" <= uri then ReadPath(uri[|"file://"|..]) else None
  }

  lemma HexDigitReads(d: nat)
    requires d < 16
    ensures HexValue(HexDigit(d)) == Some(d)
  {
  }

  /** The unreserved characters of section 2.3 of RFC 3986. */
  const UNRESERVED := "ABCDEFGHIJKLMNOPQRSTUVWXYZ" + ("abcdefghijklmnopqrstuvwxyz" + ("0123456789" + "-_.~"))

  lemma UpperAt(b: Byte)
    ensures b as char in "ABCDEFGHIJKLMNOPQRSTUVWXYZ" <==> 65 <= b <= 90
  {
  }

  lemma LowerAt(b: Byte)
    ensures b as char in "abcdefghijklmnopqrstuvwxyz" <==> 97 <= b <= 122
  {
  }

  lemma DigitAt(b: Byte)
    ensures b as char in "0123456789" <==> 48 <= b <= 57
  {
  }

  /** A byte stands for itself exactly if its character is one of them; any other is written `%` and two digits. */
  lemma UnreservedExact(b: Byte)
    ensures Unreserved(b) <==> b as char in UNRESERVED
    ensures UriByte(b) ==
            if b as char in UNRESERVED then [b as char]
            else ['%', "0123456789ABCDEF"[b / 16], "0123456789ABCDEF"[b % 16]]
  {
    UpperAt(b);
    LowerAt(b);
    DigitAt(b);
    HexDigitAt(b / 16);
    HexDigitAt(b % 16);
  }

  lemma HexDigitAt(d: nat)
    requires d < 16
    ensures HexDigit(d) == "0123456789ABCDEF"[d]
  {
  }

  lemma ReadsByte(b: Byte, rest: string)
    ensures ReadByte(UriByte(b) + rest) == Some((b, rest))
    ensures UriByte(b)[0] != '/'
  {
    var s := UriByte(b) + rest;
    if Unreserved(b) {
      assert s[0] == b as char && s[1..] == rest;
    } else {
      HexDigitReads(b / 16);
      HexDigitReads(b % 16);
      hide HexDigit, HexValue;
      assert s[0] == '%' && s[1] == HexDigit(b / 16) && s[2] == HexDigit(b % 16) && s[3..] == rest;
    }
  }

  lemma {:induction false} ReadsSegment(segment: seq<Byte>, rest: string)
    requires rest == "" || rest[0] == '/'
    ensures ReadSegment(UriSegment(segment) + rest) == Some((segment, rest))
  {
    hide UriByte, ReadByte;
    if segment == [] {
      assert "" + rest == rest;
    } else {
      var b, more := segment[0], UriSegment(segment[1..]);
      ReadsByte(b, more + rest);
      ReadsSegment(segment[1..], rest);
      assert UriByte(b) + more + rest == UriByte(b) + (more + rest);
      assert (UriByte(b) + (more + rest))[0] == UriByte(b)[0];
      assert [b] + segment[1..] == segment;
    }
  }

  lemma {:induction false} ReadsPath(path: seq<seq<Byte>>)
    ensures ReadPath(UriPath(path)) == Some(path)
    ensures UriPath(path) == "" || UriPath(path)[0] == '/'
  {
    if path != [] {
      ReadsPath(path[1..]);
      ReadsSegment(path[0], UriPath(path[1..]));
      assert UriPath(path)[1..] == UriSegment(path[0]) + UriPath(path[1..]);
      assert [path[0]] + path[1..] == path;
    }
  }

  /** The URI of a path reads back as its names in text form: it is exact for names that are UTF-8, and only for those. */
  lemma RoundTrip(path: seq<seq<Byte>>)
    ensures ReadFileUri(PathToFileUri(path)) == Some(Printed(path))
    ensures ReadFileUri(PathToFileUri(path)) == Some(path) <==>
            forall i :: 0 <= i < |path| ==> Utf8.IsUtf8(path[i])
  {
    hide UriPath, Utf8.Encode, Utf8.Lossy, Utf8.IsUtf8;
    ReadsPath(Printed(path));
    assert PathToFileUri(path)[|"file://"|..] == UriPath(Printed(path));
    forall i | 0 <= i < |path| ensures Printed(path)[i] == path[i] <==> Utf8.IsUtf8(path[i]) {
      Utf8.EncodesDecoded(path[i]);
    }
    if Printed(path) != path {
      var i :| 0 <= i < |path| && Printed(path)[i] != path[i];
    }
  }

  /** Two paths share a URI exactly when their names have the same text, name by name. */
  lemma SharedUris(p: seq<seq<Byte>>, q: seq<seq<Byte>>)
    ensures PathToFileUri(p) == PathToFileUri(q) <==>
            |p| == |q| && forall i :: 0 <= i < |p| ==> Utf8.Lossy(p[i]) == Utf8.Lossy(q[i])
  {
    hide *;
    RoundTrip(p);
    RoundTrip(q);
    forall i | 0 <= i < |p| && |p| == |q|
      ensures Printed(p)[i] == Printed(q)[i] <==> Utf8.Lossy(p[i]) == Utf8.Lossy(q[i])
    {
      Utf8.DecodesEncoded(Utf8.Lossy(p[i]));
      Utf8.DecodesEncoded(Utf8.Lossy(q[i]));
    }
    if |p| == |q| && forall i :: 0 <= i < |p| ==> Utf8.Lossy(p[i]) == Utf8.Lossy(q[i]) {
      assert Printed(p) == Printed(q);
      SamePrinted(p, q);
    }
  }

  lemma SamePrinted(p: seq<seq<Byte>>, q: seq<seq<Byte>>)
    requires Printed(p) == Printed(q)
    ensures PathToFileUri(p) == PathToFileUri(q)
  {
    hide Printed, UriPath;
  }

  /** Two root directories whose names are no UTF-8 can share every URI below them. */
  lemma NamesCollide(below: seq<seq<Byte>>)
    ensures [[0xFF]] + below != [[0xFE]] + below
    ensures PathToFileUri([[0xFF]] + below) == PathToFileUri([[0xFE]] + below)
  {
    var p, q: seq<seq<Byte>> := [[0xFF]] + below, [[0xFE]] + below;
    assert p[0] != q[0];
    assert Utf8.Lossy([0xFF]) == [Utf8.REPLACEMENT] == Utf8.Lossy([0xFE]);
    SharedUris(p, q);
  }
}
