/**
 Percent-encoding of path segments (section 2.1 of RFC 3986) and the Crossmint wallet URLs built from it.
 */
module UriComponent {
  import opened Core

  /** The unreserved set of JavaScript's encodeURIComponent. A dot stays literal. */
  predicate Unreserved(b: byte) {
    || 0x41 <= b <= 0x5a || 0x61 <= b <= 0x7a || 0x30 <= b <= 0x39
    || b == 0x2d || b == 0x5f || b == 0x2e || b == 0x21 || b == 0x7e
    || b == 0x2a || b == 0x27 || b == 0x28 || b == 0x29
  }

  function UpperHex(n: nat): char
    requires n < 16
  {
    if n < 10 then (48 + n) as char else (55 + n) as char
  }

  /** `{byte:02X}` behind a percent sign, or the byte itself. */
  function EncodeByte(b: byte): (r: string)
    ensures |r| == 1 || |r| == 3
  {
    if Unreserved(b) then [b as char] else ['%', UpperHex(b / 16), UpperHex(b % 16)]
  }

  function Encode(input: Bytes): string {
    if input == [] then "" else EncodeByte(input[0]) + Encode(input[1..])
  }

  lemma {:induction false} EncodeAppends(a: Bytes, b: Bytes)
    ensures Encode(a + b) == Encode(a) + Encode(b)
  {
    if a == [] {
      assert a + b == b;
    } else {
      assert (a + b)[1..] == a[1..] + b;
      EncodeAppends(a[1..], b);
    }
  }

  lemma {:induction false} EncodeOne(b: byte)
    ensures Encode([b]) == EncodeByte(b)
  {
    assert [b][1..] == [];
    assert Encode([]) == "";
  }

  /** `encode_uri_component` / `EncodeURIComponent`: the loop over bytes. */
  method EncodeUriComponent(input: Bytes) returns (encoded: string)
    ensures encoded == Encode(input)
  {
    encoded := "";
    for i := 0 to |input|
      invariant encoded == Encode(input[..i])
    {
      var b := input[i];
      assert input[..i + 1] == input[..i] + [b];
      EncodeAppends(input[..i], [b]);
      EncodeOne(b);
      if Unreserved(b) {
        encoded := encoded + [b as char];
      } else {
        encoded := encoded + ['%', UpperHex(b / 16), UpperHex(b % 16)];
      }
    }
    assert input[..|input|] == input;
  }

  const UPPER_HEX := "0123456789ABCDEF"

  /** A byte stays as it is exactly for these characters; any other becomes a percent sign and two upper-case digits. */
  lemma {:induction false} EncodedByteSpelled(b: byte)
    ensures var c := b as char;
      Encode([b])
        == if 'A' <= c <= 'Z' || 'a' <= c <= 'z' || '0' <= c <= '9'
              || c in {'-', '_', '.', '!', '~', '*', '\'', '(', ')'} then [c]
           else ['%', UPPER_HEX[b / 16], UPPER_HEX[b % 16]]
  {
    EncodeOne(b);
  }

  // ---- round trip ----

  function HexValue(c: char): Option<nat> {
    if '0' <= c <= '9' then Some(c as int - 48)
    else if 'A' <= c <= 'F' then Some(c as int - 55)
    else if 'a' <= c <= 'f' then Some(c as int - 87)
    else None
  }

  /** A decoder written from the RFC: a percent sign takes two hex digits, any other octet stands for itself. */
  function Decode(s: string): Option<Bytes>
    decreases |s|
  {
    if s == "" then Some([])
    else if s[0] == '%' then
      if |s| < 3 || HexValue(s[1]).None? || HexValue(s[2]).None? then None
      else
        match Decode(s[3..])
        case None => None
        case Some(rest) => Some([16 * HexValue(s[1]).value + HexValue(s[2]).value] + rest)
    else if s[0] as int >= 256 then None
    else
      match Decode(s[1..])
      case None => None
      case Some(rest) => Some([s[0] as int] + rest)
  }

  lemma {:induction false} DecodeByte(b: byte, rest: string)
    requires Decode(rest).Some?
    ensures Decode(EncodeByte(b) + rest) == Some([b] + Decode(rest).value)
  {
    var s := EncodeByte(b) + rest;
    if Unreserved(b) {
      assert s[1..] == rest;
    } else {
      assert s[3..] == rest;
      HexReadsBack(b / 16);
      HexReadsBack(b % 16);
    }
  }

  lemma {:induction false} HexReadsBack(n: nat)
    requires n < 16
    ensures HexValue(UpperHex(n)) == Some(n)
  {
  }

  /** Every byte string survives encoding and decoding. */
  lemma {:induction false} RoundTrip(input: Bytes)
    ensures Decode(Encode(input)) == Some(input)
  {
    if input != [] {
      RoundTrip(input[1..]);
      DecodeByte(input[0], Encode(input[1..]));
      assert input == [input[0]] + input[1..];
    }
  }

  // ---- nothing that could retarget a path ----

  /** Letters, digits, the unreserved marks and the percent sign. */
  predicate Safe(c: char) {
    c == '%' || ((c as int) < 256 && Unreserved(c as int))
  }

  lemma {:induction false} EncodeIsSafe(input: Bytes, i: nat)
    requires i < |Encode(input)|
    ensures Safe(Encode(input)[i]) && Encode(input)[i] !in {'/', '?', '#'}
  {
    if input != [] {
      var head := EncodeByte(input[0]);
      if i >= |head| {
        EncodeIsSafe(input[1..], i - |head|);
      }
    }
  }

  /**
   A dot-segment is not escaped: a segment encodes to itself exactly when it is unreserved throughout, and ".."
   is.
   */
  lemma {:induction false} UnescapedIffUnreserved(input: Bytes)
    ensures |Encode(input)| == |input| <==> forall i :: 0 <= i < |input| ==> Unreserved(input[i])
    ensures |Encode(input)| >= |input|
  {
    if input != [] {
      UnescapedIffUnreserved(input[1..]);
      assert forall i :: 0 <= i < |input[1..]| ==> input[1..][i] == input[i + 1];
      assert input == [input[0]] + input[1..];
    }
  }

  lemma {:induction false} DotSegmentsStayLiteral()
    ensures Encode([0x2e, 0x2e]) == ".." && Encode([0x2e]) == "."
  {
    EncodeOne(0x2e);
    assert [0x2e, 0x2e][1..] == [0x2e];
  }

  // ---- wallet URLs ----

  function TrimSlashes(base: string): string {
    if base != "" && base[|base| - 1] == '/' then TrimSlashes(base[..|base| - 1]) else base
  }

  function UrlPrefix(base: string): string {
    TrimSlashes(base) + "/2025-06-09/wallets/"
  }

  /** Slashes at the end of the base are dropped, and the API version and collection follow it. */
  lemma {:induction false} UrlPrefixSpelled(base: string, slashes: string)
    requires base == "" || base[|base| - 1] != '/'
    requires forall i :: 0 <= i < |slashes| ==> slashes[i] == '/'
    ensures UrlPrefix(base + slashes) == base + "/2025-06-09/wallets/"
    decreases |slashes|
  {
    if slashes == "" {
      assert base + slashes == base;
    } else {
      var n := |slashes| - 1;
      UrlPrefixSpelled(base, slashes[..n]);
      assert (base + slashes)[..|base| + n] == base + slashes[..n];
      assert TrimSlashes(base + slashes) == TrimSlashes(base + slashes[..n]);
    }
  }

  /** The path below the prefix: the encoded parts, joined by slashes. */
  function Path(parts: seq<Bytes>): string {
    if parts == [] then "" else if |parts| == 1 then Encode(parts[0]) else Encode(parts[0]) + "/" + Path(parts[1..])
  }

  lemma {:induction false} PathAppends(parts: seq<Bytes>, last: Bytes)
    requires parts != []
    ensures Path(parts + [last]) == Path(parts) + "/" + Encode(last)
  {
    assert (parts + [last])[1..] == parts[1..] + [last];
    if |parts| == 1 {
      assert parts[1..] + [last] == [last];
    } else {
      PathAppends(parts[1..], last);
      SlashAssoc(Encode(parts[0]), Path(parts[1..]), Encode(last));
    }
  }

  lemma {:induction false} SlashAssoc(a: string, b: string, c: string)
    ensures a + "/" + (b + "/" + c) == a + "/" + b + "/" + c
  {
  }

  /** `build_wallets_api_url`: prefix, locator, then one slash per segment. */
  method BuildWalletsUrl(base: string, locator: Bytes, segments: seq<Bytes>) returns (url: string)
    ensures url == UrlPrefix(base) + Path([locator] + segments)
  {
    url := UrlPrefix(base);
    var encoded := EncodeUriComponent(locator);
    url := url + encoded;
    for i := 0 to |segments|
      invariant url == UrlPrefix(base) + Path([locator] + segments[..i])
    {
      url := url + "/";
      encoded := EncodeUriComponent(segments[i]);
      url := url + encoded;
      UrlGrows(UrlPrefix(base), locator, segments, i);
    }
    assert segments[..|segments|] == segments;
  }

  lemma {:induction false} UrlGrows(prefix: string, locator: Bytes, segments: seq<Bytes>, i: nat)
    requires i < |segments|
    ensures prefix + Path([locator] + segments[..i + 1])
         == prefix + Path([locator] + segments[..i]) + "/" + Encode(segments[i])
  {
    PathAppends([locator] + segments[..i], segments[i]);
    assert [locator] + segments[..i + 1] == [locator] + segments[..i] + [segments[i]];
  }

  /** Splits at slashes and decodes every piece. */
  function Split(path: string): seq<string>
    decreases |path|
  {
    if path == "" then [""]
    else if path[0] == '/' then [""] + Split(path[1..])
    else
      var rest := Split(path[1..]);
      if rest == [] then [[path[0]]] else [[path[0]] + rest[0]] + rest[1..]
  }

  lemma {:induction false} SplitWord(word: string, tail: string)
    requires forall i :: 0 <= i < |word| ==> word[i] != '/'
    ensures Split(word + "/" + tail) == [word] + Split(tail)
    ensures Split(word) == [word]
  {
    if word == "" {
      assert word + "/" + tail == "/" + tail;
      assert ("/" + tail)[1..] == tail;
    } else {
      SplitWord(word[1..], tail);
      assert (word + "/" + tail)[1..] == word[1..] + "/" + tail;
      assert word == [word[0]] + word[1..];
    }
  }

  function DecodeAll(pieces: seq<string>): Option<seq<Bytes>> {
    if pieces == [] then Some([])
    else if Decode(pieces[0]).None? || DecodeAll(pieces[1..]).None? then None
    else Some([Decode(pieces[0]).value] + DecodeAll(pieces[1..]).value)
  }

  /** Below a fixed prefix the path splits back into exactly the locator and segments it was built from. */
  lemma {:induction false} PathSplitsBack(parts: seq<Bytes>)
    requires parts != []
    ensures DecodeAll(Split(Path(parts))) == Some(parts)
  {
    var word := Encode(parts[0]);
    RoundTrip(parts[0]);
    EncodedHasNoSlash(parts[0]);
    if |parts| == 1 {
      SplitWord(word, "");
      assert Path(parts) == word;
      assert DecodeAll([word][1..]) == Some([]);
      assert [parts[0]] + [] == parts;
    } else {
      SplitWord(word, Path(parts[1..]));
      PathSplitsBack(parts[1..]);
      var pieces := Split(Path(parts[1..]));
      assert ([word] + pieces)[1..] == pieces;
      assert parts == [parts[0]] + parts[1..];
    }
  }

  /** So two requests with one base address one URL only if they name the same locator and segments. */
  lemma {:induction false} UrlsAreInjective(base: string, l1: Bytes, s1: seq<Bytes>, l2: Bytes, s2: seq<Bytes>)
    requires UrlPrefix(base) + Path([l1] + s1) == UrlPrefix(base) + Path([l2] + s2)
    ensures l1 == l2 && s1 == s2
  {
    var p := UrlPrefix(base);
    assert Path([l1] + s1) == (p + Path([l1] + s1))[|p|..];
    assert Path([l2] + s2) == (p + Path([l2] + s2))[|p|..];
    PathSplitsBack([l1] + s1);
    PathSplitsBack([l2] + s2);
    assert l1 == ([l1] + s1)[0] && s1 == ([l1] + s1)[1..];
    assert l2 == ([l2] + s2)[0] && s2 == ([l2] + s2)[1..];
  }

  // ---- what a URL parser makes of dot-segments ----

  /**
   Section 5.2.4 of RFC 3986 on the segments of an absolute path, `out` being the output so far. `reqwest::Url`
   applies it to every URL it parses.
   */
  function RemoveDots(out: seq<string>, rest: seq<string>): seq<string>
    decreases |rest|
  {
    if rest == [] then out
    else if rest[0] == "." then if |rest| == 1 then out + [""] else RemoveDots(out, rest[1..])
    else if rest[0] == ".." then
      var shorter := if out == [] then [] else out[..|out| - 1];
      if |rest| == 1 then shorter + [""] else RemoveDots(shorter, rest[1..])
    else RemoveDots(out + [rest[0]], rest[1..])
  }

  predicate DotSegment(segment: string) {
    segment == "." || segment == ".."
  }

  predicate DotFree(segments: seq<string>) {
    forall i :: 0 <= i < |segments| ==> !DotSegment(segments[i])
  }

  lemma {:induction false} DotFreeIsKept(out: seq<string>, rest: seq<string>)
    requires DotFree(rest)
    ensures RemoveDots(out, rest) == out + rest
    decreases |rest|
  {
    if rest != [] {
      DotFreeIsKept(out + [rest[0]], rest[1..]);
      assert out + [rest[0]] + rest[1..] == out + rest;
    }
  }

  lemma {:induction false} RemovalNeverGrows(out: seq<string>, rest: seq<string>)
    ensures |RemoveDots(out, rest)| <= |out| + |rest|
    decreases |rest|
  {
    if rest != [] {
      var shorter := if out == [] then [] else out[..|out| - 1];
      RemovalNeverGrows(out, rest[1..]);
      RemovalNeverGrows(shorter, rest[1..]);
      RemovalNeverGrows(out + [rest[0]], rest[1..]);
    }
  }

  /** A dot-segment costs the path a segment, or, at its end, leaves an empty one in its place. */
  lemma {:induction false} DotsLeaveATrace(out: seq<string>, rest: seq<string>)
    requires !DotFree(rest)
    ensures var kept := RemoveDots(out, rest);
      |kept| < |out| + |rest| || (kept[|kept| - 1] == "" && DotSegment(rest[|rest| - 1]))
    decreases |rest|
  {
    var shorter := if out == [] then [] else out[..|out| - 1];
    RemovalNeverGrows(out, rest[1..]);
    RemovalNeverGrows(shorter, rest[1..]);
    if !DotSegment(rest[0]) {
      var i :| 0 <= i < |rest| && DotSegment(rest[i]);
      assert rest[1..][i - 1] == rest[i];
      DotsLeaveATrace(out + [rest[0]], rest[1..]);
    }
  }

  function EncodeEach(parts: seq<Bytes>): (r: seq<string>)
    ensures |r| == |parts| && forall i :: 0 <= i < |parts| ==> r[i] == Encode(parts[i])
  {
    seq(|parts|, i requires 0 <= i < |parts| => Encode(parts[i]))
  }

  lemma {:induction false} EncodedHasNoSlash(part: Bytes)
    ensures forall i :: 0 <= i < |Encode(part)| ==> Encode(part)[i] != '/'
  {
    forall i | 0 <= i < |Encode(part)|
      ensures Encode(part)[i] != '/'
    {
      EncodeIsSafe(part, i);
    }
  }

  lemma {:induction false} PathSegments(parts: seq<Bytes>)
    requires parts != []
    ensures Split(Path(parts)) == EncodeEach(parts)
  {
    EncodedHasNoSlash(parts[0]);
    if |parts| == 1 {
      SplitWord(Encode(parts[0]), "");
    } else {
      SplitWord(Encode(parts[0]), Path(parts[1..]));
      PathSegments(parts[1..]);
    }
  }

  /** The parts whose encoding a URL parser takes for a step in the tree. */
  predicate DotPart(part: Bytes) {
    part == [0x2e] || part == [0x2e, 0x2e]
  }

  lemma {:induction false} DotPartIffDotSegment(part: Bytes)
    ensures DotSegment(Encode(part)) <==> DotPart(part)
  {
    DotSegmentsStayLiteral();
    RoundTrip(part);
    RoundTrip([0x2e]);
    RoundTrip([0x2e, 0x2e]);
  }

  lemma {:induction false} DecodedLast(pieces: seq<string>)
    requires pieces != [] && DecodeAll(pieces).Some?
    ensures var parts := DecodeAll(pieces).value;
      |parts| == |pieces| && Decode(pieces[|pieces| - 1]) == Some(parts[|parts| - 1])
  {
    if |pieces| == 1 {
      assert DecodeAll(pieces[1..]) == Some([]);
    } else {
      DecodedLast(pieces[1..]);
    }
  }

  /** What is left of the segments below the prefix once the parser removed dot-segments, decoded. */
  function Parsed(prefix: seq<string>, below: seq<string>): Option<seq<Bytes>> {
    var kept := RemoveDots([], prefix + below);
    if prefix <= kept then DecodeAll(kept[|prefix|..]) else None
  }

  function Received(prefix: seq<string>, parts: seq<Bytes>): Option<seq<Bytes>> {
    Parsed(prefix, Split(Path(parts)))
  }

  lemma {:induction false} DotPartsAreSegments(parts: seq<Bytes>)
    ensures DotFree(EncodeEach(parts)) <==> forall i :: 0 <= i < |parts| ==> !DotPart(parts[i])
  {
    forall i | 0 <= i < |parts|
      ensures DotSegment(EncodeEach(parts)[i]) <==> DotPart(parts[i])
    {
      DotPartIffDotSegment(parts[i]);
    }
  }

  lemma {:induction false} DotFreePathSurvives(prefix: seq<string>, parts: seq<Bytes>)
    requires parts != [] && DotFree(prefix) && DotFree(EncodeEach(parts))
    ensures Received(prefix, parts) == Some(parts)
  {
    PathSegments(parts);
    var all := prefix + EncodeEach(parts);
    DotFreeIsKept([], all);
    assert all[|prefix|..] == EncodeEach(parts) && prefix <= all;
    assert RemoveDots([], all) == all;
    PathSplitsBack(parts);
  }

  lemma {:induction false} DottedSegmentsAreLost(prefix: seq<string>, below: seq<string>, parts: seq<Bytes>)
    requires parts != [] && |below| == |parts| && !DotFree(below)
    requires DotSegment(below[|below| - 1]) ==> DotPart(parts[|parts| - 1])
    ensures Parsed(prefix, below) != Some(parts)
  {
    var all := prefix + below;
    var i :| 0 <= i < |below| && DotSegment(below[i]);
    assert all[|prefix| + i] == below[i] && all[|all| - 1] == below[|below| - 1];
    DotsLeaveATrace([], all);
    var kept := RemoveDots([], all);
    if prefix <= kept {
      TracedPiecesDiffer(kept[|prefix|..], parts);
    }
  }

  lemma {:induction false} TracedPiecesDiffer(pieces: seq<string>, parts: seq<Bytes>)
    requires parts != []
    requires |pieces| < |parts| || (pieces != [] && pieces[|pieces| - 1] == "" && DotPart(parts[|parts| - 1]))
    ensures DecodeAll(pieces) != Some(parts)
  {
    if DecodeAll(pieces) == Some(parts) {
      LastPieceDecides(pieces, parts);
    }
  }

  /**
   Behind a URL parser the path still splits back into the parts it was built from exactly when no part is "." or
   "..": the encoder leaves those to be read as steps in the tree.
   */
  lemma {:induction false} PathSurvivesParserIff(prefix: seq<string>, parts: seq<Bytes>)
    requires parts != [] && DotFree(prefix)
    ensures Received(prefix, parts) == Some(parts) <==> forall i :: 0 <= i < |parts| ==> !DotPart(parts[i])
  {
    DotPartsAreSegments(parts);
    if DotFree(EncodeEach(parts)) {
      DotFreePathSurvives(prefix, parts);
    } else {
      PathSegments(parts);
      DotPartIffDotSegment(parts[|parts| - 1]);
      DottedSegmentsAreLost(prefix, EncodeEach(parts), parts);
    }
  }

  lemma {:induction false} LastPieceDecides(pieces: seq<string>, parts: seq<Bytes>)
    requires parts != [] && DecodeAll(pieces) == Some(parts)
    ensures |pieces| == |parts| && Decode(pieces[|pieces| - 1]) == Some(parts[|parts| - 1])
  {
    if pieces != [] {
      DecodedLast(pieces);
    }
  }

  /** The consequence: the wallet locator ".." turns a wallet request into one outside the wallets. */
  lemma {:induction false} DotDotLeavesTheWallets(segment: Bytes)
    requires !DotPart(segment)
    ensures RemoveDots([], ["2025-06-09", "wallets"] + Split(Path([[0x2e, 0x2e], segment]))) ==
      ["2025-06-09", Encode(segment)]
  {
    PathSegments([[0x2e, 0x2e], segment]);
    DotSegmentsStayLiteral();
    DotPartIffDotSegment(segment);
    var end := Encode(segment);
    assert ["2025-06-09", "wallets"] + Split(Path([[0x2e, 0x2e], segment])) == ["2025-06-09", "wallets", "..", end];
    ParentIsDropped("2025-06-09", "wallets", end);
  }

  lemma {:induction false} ParentIsDropped(a: string, b: string, end: string)
    requires !DotSegment(a) && !DotSegment(b) && !DotSegment(end)
    ensures RemoveDots([], [a, b, "..", end]) == [a, end]
  {
    assert [a, b, "..", end] == [a] + [b, "..", end] && [b, "..", end] == [b] + ["..", end];
    PlainSegmentIsKept([], a, [b, "..", end]);
    PlainSegmentIsKept([a], b, ["..", end]);
    assert [] + [a] == [a] && [a] + [b] == [a, b] && [end] == [end] + [];
    assert ["..", end][1..] == [end] && [a, b][..1] == [a];
    assert RemoveDots([a, b], ["..", end]) == RemoveDots([a], [end]);
    PlainSegmentIsKept([a], end, []);
  }

  lemma {:induction false} PlainSegmentIsKept(out: seq<string>, segment: string, rest: seq<string>)
    requires !DotSegment(segment)
    ensures RemoveDots(out, [segment] + rest) == RemoveDots(out + [segment], rest)
  {
    assert ([segment] + rest)[1..] == rest;
  }
}
