/**
 Sanitizing remote text before it reaches an error or a log.
 */
module Sanitize {
  import opened Core

  /** `isDisallowedASCIIControl` */
  predicate Disallowed(c: char) {
    var n := c as int;
    n <= 0x08 || n == 0x0b || n == 0x0c || 0x0e <= n <= 0x1f || n == 0x7f
  }

  /** The class of the whitespace pattern: ASCII whitespace, space separators, line and paragraph separators, BOM. */
  predicate Collapsible(c: char) {
    var n := c as int;
    n == 0x09 || n == 0x0a || n == 0x0c || n == 0x0d || n == 0x20 || n == 0xa0 || n == 0x1680
    || 0x2000 <= n <= 0x200a || n == 0x202f || n == 0x205f || n == 0x3000
    || n == 0x2028 || n == 0x2029 || n == 0xfeff
  }

  function CleanChar(c: char): char {
    if Disallowed(c) then ' ' else c
  }

  function Clean(s: string): (r: string)
    ensures |r| == |s| && forall i :: 0 <= i < |s| ==> r[i] == CleanChar(s[i])
  {
    seq(|s|, i requires 0 <= i < |s| => CleanChar(s[i]))
  }

  function DropRun(s: string): (r: string)
    ensures |r| <= |s|
    ensures r != "" ==> !Collapsible(r[0])
  {
    if s != "" && Collapsible(s[0]) then DropRun(s[1..]) else s
  }

  /** `whitespaceRun.ReplaceAllString(s, " ")` */
  function Squeeze(s: string): string
    decreases |s|
  {
    if s == "" then ""
    else if Collapsible(s[0]) then " " + Squeeze(DropRun(s[1..]))
    else [s[0]] + Squeeze(s[1..])
  }

  function Normalize(s: string): string {
    Trim(Squeeze(Clean(s)))
  }

  const EMPTY := "[empty remote response]"
  const MARKER := " [truncated]"

  function Sanitized(s: string, maxLength: nat): string {
    var n := Normalize(s);
    if n == "" then EMPTY
    else if |n| <= maxLength then n
    else n[..maxLength] + MARKER
  }

  /** `SanitizeRemoteResponseN`: the buffer is filled rune by rune. */
  method SanitizeRemoteResponse(text: string, maxLength: nat) returns (r: string)
    ensures r == Sanitized(text, maxLength)
  {
    var b := "";
    for i := 0 to |text|
      invariant b == Clean(text)[..i]
    {
      if Disallowed(text[i]) {
        b := b + " ";
      } else {
        b := b + [text[i]];
      }
    }
    assert b == Clean(text);
    var normalized := Trim(Squeeze(b));
    if normalized == "" {
      return EMPTY;
    }
    if |normalized| <= maxLength {
      return normalized;
    }
    return normalized[..maxLength] + MARKER;
  }

  // ---- normal text ----

  /** No control character, and a space is the only whitespace, never twice in a row. */
  predicate Squeezed(s: string) {
    && (forall i :: 0 <= i < |s| ==> !Disallowed(s[i]) && (Collapsible(s[i]) ==> s[i] == ' '))
    && (forall i :: 0 <= i < |s| - 1 ==> !(s[i] == ' ' && s[i + 1] == ' '))
  }

  /** No whitespace at either end. */
  predicate Trimmed(s: string) {
    s != "" ==> !IsSpace(s[0]) && !IsSpace(s[|s| - 1])
  }

  lemma {:induction false} SqueezeIsSqueezed(s: string)
    requires forall i :: 0 <= i < |s| ==> !Disallowed(s[i])
    ensures Squeezed(Squeeze(s))
    ensures Squeeze(s) != "" && Squeeze(s)[0] == ' ' ==> s != "" && Collapsible(s[0])
    decreases |s|
  {
    if s != "" {
      if Collapsible(s[0]) {
        DropRunKeeps(s[1..]);
        SqueezeIsSqueezed(DropRun(s[1..]));
      } else {
        SqueezeIsSqueezed(s[1..]);
      }
    }
  }

  lemma {:induction false} DropRunKeeps(s: string)
    requires forall i :: 0 <= i < |s| ==> !Disallowed(s[i])
    ensures forall i :: 0 <= i < |DropRun(s)| ==> !Disallowed(DropRun(s)[i])
  {
    if s != "" && Collapsible(s[0]) {
      DropRunKeeps(s[1..]);
    }
  }

  lemma {:induction false} SqueezedIsFixed(s: string)
    requires Squeezed(s)
    ensures Squeeze(s) == s
    decreases |s|
  {
    if s != "" {
      SqueezedIsFixed(s[1..]);
      assert s == [s[0]] + s[1..];
      assert Collapsible(s[0]) && |s| > 1 ==> !Collapsible(s[1]);
      assert Collapsible(s[0]) ==> DropRun(s[1..]) == s[1..];
    }
  }

  /** Trimming takes a contiguous piece out of the text, and an untrimmable one. */
  lemma {:induction false} TrimLeftIsSuffix(s: string)
    ensures TrimLeft(s) == s[|s| - |TrimLeft(s)|..]
    ensures TrimLeft(s) != "" ==> !IsSpace(TrimLeft(s)[0])
  {
    if s != "" && IsSpace(s[0]) {
      TrimLeftIsSuffix(s[1..]);
    }
  }

  lemma {:induction false} TrimRightIsPrefix(s: string)
    ensures TrimRight(s) == s[..|TrimRight(s)|]
    ensures TrimRight(s) != "" ==> !IsSpace(TrimRight(s)[|TrimRight(s)| - 1])
  {
    if s != "" && IsSpace(s[|s| - 1]) {
      TrimRightIsPrefix(s[..|s| - 1]);
    }
  }

  lemma {:induction false} SqueezedPiece(s: string, lo: nat, hi: nat)
    requires Squeezed(s) && lo <= hi <= |s|
    ensures Squeezed(s[lo..hi])
  {
    var t := s[lo..hi];
    assert forall i :: 0 <= i < |t| ==> t[i] == s[lo + i];
  }

  lemma {:induction false} NormalizeIsNormal(s: string)
    ensures Squeezed(Normalize(s)) && Trimmed(Normalize(s))
  {
    SqueezeIsSqueezed(Clean(s));
    var q := Squeeze(Clean(s));
    var l := TrimLeft(q);
    TrimLeftIsSuffix(q);
    TrimRightIsPrefix(l);
    SqueezedPiece(q, |q| - |l|, |q|);
    SqueezedPiece(l, 0, |TrimRight(l)|);
  }

  lemma {:induction false} NormalIsFixed(s: string)
    requires Squeezed(s) && Trimmed(s)
    ensures Normalize(s) == s
  {
    assert Clean(s) == s;
    SqueezedIsFixed(s);
  }

  // ---- guarantees ----

  /** No ASCII control character at all, tabs and line breaks included. */
  predicate Printable(c: char) {
    0x20 <= c as int && c as int != 0x7f
  }

  lemma {:induction false} MarkerFacts()
    ensures |MARKER| == 12 && |EMPTY| == 23
    ensures MARKER[0] == ' ' && Squeezed(MARKER[1..]) && MARKER[1] == '[' && MARKER[11] == ']'
    ensures Squeezed(EMPTY) && Trimmed(EMPTY)
  {
  }

  /**
   The result is never empty, holds no ASCII control character, and is at most 12 runes over the limit (or
   the 23-rune placeholder).
   */
  lemma {:induction false} SanitizedIsClean(s: string, maxLength: nat)
    ensures Sanitized(s, maxLength) != ""
    ensures forall i :: 0 <= i < |Sanitized(s, maxLength)| ==> Printable(Sanitized(s, maxLength)[i])
    ensures |Sanitized(s, maxLength)| <= maxLength + 12 || Sanitized(s, maxLength) == EMPTY
    ensures maxLength >= 11 ==> |Sanitized(s, maxLength)| <= maxLength + 12
  {
    NormalizeIsNormal(s);
    MarkerFacts();
    var n := Normalize(s);
    if n != "" && |n| > maxLength {
      var t := n[..maxLength] + MARKER;
      forall i | 0 <= i < |t|
        ensures Printable(t[i])
      {
        if i == maxLength {
          assert t[i] == MARKER[0];
        } else if i > maxLength {
          assert t[i] == MARKER[1..][i - maxLength - 1];
        }
      }
    }
  }

  /** A second space in front of squeezed text is squeezed away. */
  lemma {:induction false} SqueezeDoubleSpace(a: string, b: string)
    requires Squeezed(a) && a != "" && a[|a| - 1] == ' '
    requires Squeezed(b) && b != "" && b[0] != ' '
    ensures Squeeze(a + " " + b) == a + b
    decreases |a|
  {
    var whole := a + " " + b;
    if |a| == 1 {
      assert a == " ";
      assert whole[1..] == " " + b;
      assert DropRun(" " + b) == b by {
        assert (" " + b)[1..] == b;
      }
      SqueezedIsFixed(b);
    } else {
      assert whole[1..] == a[1..] + " " + b;
      SqueezeDoubleSpace(a[1..], b);
      assert a == [a[0]] + a[1..];
      assert a[0] == ' ' ==> a[1] != ' ';
      assert whole[1..][0] == a[1];
      assert Collapsible(a[0]) ==> DropRun(whole[1..]) == whole[1..];
    }
  }

  /** Truncated text is truncated at the same place again. */
  lemma {:induction false} TruncatedIsStable(n: string, m: nat)
    requires Squeezed(n) && Trimmed(n) && 0 < m < |n|
    ensures Normalize(n[..m] + MARKER) != "" && |Normalize(n[..m] + MARKER)| > m
    ensures Normalize(n[..m] + MARKER)[..m] == n[..m]
  {
    MarkerFacts();
    var a, b := n[..m], MARKER[1..];
    var t := a + MARKER;
    assert MARKER == " " + b;
    SqueezedPiece(n, 0, m);
    assert t == a + " " + b;
    if a[m - 1] == ' ' {
      SqueezeDoubleSpace(a, b);
      CleanSquare(a, b);
      assert Trimmed(a + b);
      assert Normalize(t) == a + b;
    } else {
      JoinIsSqueezed(a, b);
      NormalIsFixed(t);
    }
  }

  lemma {:induction false} JoinIsSqueezed(a: string, b: string)
    requires Squeezed(a) && Squeezed(b) && a != "" && b != "" && a[|a| - 1] != ' ' && b[0] != ' '
    ensures Squeezed(a + " " + b)
  {
  }

  lemma {:induction false} CleanSquare(a: string, b: string)
    requires Squeezed(a) && Squeezed(b)
    ensures Clean(a + " " + b) == a + " " + b
  {
  }

  /** Sanitizing is idempotent on every input exactly for limits that leave room for the placeholder. */
  lemma {:induction false} IdempotentFrom23(s: string, maxLength: nat)
    requires maxLength >= 23
    ensures Sanitized(Sanitized(s, maxLength), maxLength) == Sanitized(s, maxLength)
  {
    MarkerFacts();
    NormalizeIsNormal(s);
    var n := Normalize(s);
    if n == "" {
      NormalIsFixed(EMPTY);
    } else if |n| <= maxLength {
      NormalIsFixed(n);
    } else {
      TruncatedIsStable(n, maxLength);
    }
  }

  lemma {:induction false} NotIdempotentBelow23(maxLength: nat)
    requires maxLength < 23
    ensures Sanitized(Sanitized("", maxLength), maxLength) != Sanitized("", maxLength)
  {
    MarkerFacts();
    NormalIsFixed("");
    NormalIsFixed(EMPTY);
    assert |Sanitized(EMPTY, maxLength)| == maxLength + 12;
    assert EMPTY[22] == ']' && EMPTY[21] == 'e' && MARKER[10] == 'd';
    var t := Sanitized(EMPTY, maxLength);
    assert maxLength == 11 ==> t[21] == MARKER[10];
  }

  lemma {:induction false} IdempotentIffRoomForPlaceholder(maxLength: nat)
    ensures (forall s :: Sanitized(Sanitized(s, maxLength), maxLength) == Sanitized(s, maxLength)) <==> maxLength >= 23
  {
    if maxLength >= 23 {
      forall s
        ensures Sanitized(Sanitized(s, maxLength), maxLength) == Sanitized(s, maxLength)
      {
        IdempotentFrom23(s, maxLength);
      }
    } else {
      NotIdempotentBelow23(maxLength);
    }
  }

  // ---- what survives ----

  /** A character a reader sees: neither an ASCII control or space, nor wide white space, nor the byte order mark. */
  predicate Visible(c: char) {
    var n := c as int;
    && 0x20 < n && n != 0x7f && n != 0x85 && n != 0xa0 && n != 0x1680 && !(0x2000 <= n < 0x200b)
    && n != 0x2028 && n != 0x2029 && n != 0x202f && n != 0x205f && n != 0x3000 && n != 0xfeff
  }

  /** Visible characters are exactly the ones the three classes of the code leave alone. */
  lemma {:induction false} VisibleIff(c: char)
    ensures Visible(c) <==> !Disallowed(c) && !Collapsible(c) && !IsSpace(c)
  {
  }

  function VisibleOf(s: string): string {
    if s == "" then "" else (if Visible(s[0]) then [s[0]] else "") + VisibleOf(s[1..])
  }

  lemma {:induction false} VisibleAppends(a: string, b: string)
    ensures VisibleOf(a + b) == VisibleOf(a) + VisibleOf(b)
  {
    if a == "" {
      assert a + b == b;
    } else {
      assert (a + b)[1..] == a[1..] + b;
      VisibleAppends(a[1..], b);
    }
  }

  lemma {:induction false} VisibleOfClean(s: string)
    ensures VisibleOf(Clean(s)) == VisibleOf(s)
  {
    if s != "" {
      VisibleIff(s[0]);
      assert Clean(s)[1..] == Clean(s[1..]);
      VisibleOfClean(s[1..]);
    }
  }

  lemma {:induction false} VisibleOfDropRun(s: string)
    ensures VisibleOf(DropRun(s)) == VisibleOf(s)
  {
    if s != "" && Collapsible(s[0]) {
      VisibleIff(s[0]);
      VisibleOfDropRun(s[1..]);
    }
  }

  lemma {:induction false} VisibleOfSqueeze(s: string)
    ensures VisibleOf(Squeeze(s)) == VisibleOf(s)
    decreases |s|
  {
    if s != "" {
      VisibleIff(s[0]);
      if Collapsible(s[0]) {
        VisibleOfSqueeze(DropRun(s[1..]));
        VisibleOfDropRun(s[1..]);
        assert (" " + Squeeze(DropRun(s[1..])))[1..] == Squeeze(DropRun(s[1..]));
      } else {
        VisibleOfSqueeze(s[1..]);
        assert ([s[0]] + Squeeze(s[1..]))[1..] == Squeeze(s[1..]);
      }
    }
  }

  lemma {:induction false} VisibleOfTrimLeft(s: string)
    ensures VisibleOf(TrimLeft(s)) == VisibleOf(s)
  {
    if s != "" && IsSpace(s[0]) {
      VisibleIff(s[0]);
      VisibleOfTrimLeft(s[1..]);
    }
  }

  lemma {:induction false} VisibleOfTrimRight(s: string)
    ensures VisibleOf(TrimRight(s)) == VisibleOf(s)
  {
    if s != "" && IsSpace(s[|s| - 1]) {
      var init, last := s[..|s| - 1], [s[|s| - 1]];
      VisibleIff(s[|s| - 1]);
      VisibleOfTrimRight(init);
      assert s == init + last;
      VisibleAppends(init, last);
      assert last[1..] == "";
      assert VisibleOf(last) == "";
    }
  }

  /** Normalizing touches only whitespace and control characters: the visible text comes through in order. */
  lemma {:induction false} VisibleTextSurvives(s: string)
    ensures VisibleOf(Normalize(s)) == VisibleOf(s)
  {
    VisibleOfClean(s);
    VisibleOfSqueeze(Clean(s));
    VisibleOfTrimLeft(Squeeze(Clean(s)));
    VisibleOfTrimRight(TrimLeft(Squeeze(Clean(s))));
  }

  /**
   Normalized text is visible characters and single spaces. One white space escapes: U+0085, which Go trims from the
   ends but does not collapse within the text.
   */
  lemma {:induction false} NormalizedSpelled(s: string, i: nat)
    requires i < |Normalize(s)|
    ensures var c := Normalize(s)[i]; Visible(c) || c == ' ' || c as int == 0x85
    ensures i + 1 < |Normalize(s)| ==> Normalize(s)[i] != ' ' || Normalize(s)[i + 1] != ' '
    ensures i == 0 || i == |Normalize(s)| - 1 ==> Visible(Normalize(s)[i])
  {
    NormalizeIsNormal(s);
    VisibleIff(Normalize(s)[i]);
  }

  /** Words of visible characters with single spaces between them. */
  predicate Plain(s: string) {
    && s != "" && Visible(s[0]) && Visible(s[|s| - 1])
    && (forall i :: 0 <= i < |s| ==> Visible(s[i]) || s[i] == ' ')
    && (forall i :: 0 <= i < |s| - 1 ==> s[i] != ' ' || s[i + 1] != ' ')
  }

  lemma {:induction false} PlainIsNormal(s: string)
    requires Plain(s)
    ensures Normalize(s) == s
  {
    forall i | 0 <= i < |s|
      ensures !Disallowed(s[i]) && (Collapsible(s[i]) ==> s[i] == ' ')
    {
      VisibleIff(s[i]);
    }
    VisibleIff(s[0]);
    VisibleIff(s[|s| - 1]);
    NormalIsFixed(s);
  }

  /** Text without a visible character, and only such text, normalizes to nothing. */
  lemma {:induction false} NothingVisibleNothingLeft(s: string)
    ensures Normalize(s) == "" <==> VisibleOf(s) == ""
  {
    VisibleTextSurvives(s);
    NormalizeIsNormal(s);
    var n := Normalize(s);
    if n != "" {
      VisibleIff(n[0]);
    }
  }

  /**
   What a caller gets: plain text within the limit unchanged, longer plain text cut at the limit and marked, and the
   placeholder for text in which nothing is visible.
   */
  lemma {:induction false} SanitizedSpelled(s: string, maxLength: nat)
    ensures VisibleOf(s) == "" ==> Sanitized(s, maxLength) == "[empty remote response]"
    ensures Plain(s) && |s| <= maxLength ==> Sanitized(s, maxLength) == s
    ensures Plain(s) && |s| > maxLength ==> Sanitized(s, maxLength) == s[..maxLength] + " [truncated]"
  {
    NothingVisibleNothingLeft(s);
    if Plain(s) {
      PlainIsNormal(s);
    }
  }

  /** Text that is already normal and short enough is returned as it is. */
  lemma {:induction false} NormalTextIsKept(s: string, maxLength: nat)
    requires Squeezed(s) && Trimmed(s) && 0 < |s| <= maxLength
    ensures Sanitized(s, maxLength) == s
  {
    NormalIsFixed(s);
  }
}
