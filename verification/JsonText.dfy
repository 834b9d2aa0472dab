/**
 JSON text: the literals that Go's encoder (with HTML escaping off) and serde_json write, and the plain printer
 over them. A reader written from RFC 8259 reads every printed value back, so a text identifies its value.
 */
module JsonText {
  import opened Core
  import opened CanonicalJson
  import Idempotency

  /** Whose string literals: the two encoders escape different characters. */
  datatype Dialect = GoEncoder | Serde

  // ---- string literals ----

  function HexDigit(n: nat): char
    requires n < 16
  {
    Idempotency.HexDigit(n)
  }

  /** The four hex digits of a code unit below 0x10000. */
  function Hex4(n: nat): string
    requires n < 0x10000
  {
    var q := n / 16;
    [HexDigit(q / 16 / 16), HexDigit(q / 16 % 16), HexDigit(q % 16), HexDigit(n % 16)]
  }

  /** The letter of a two-character escape, if `c` has one. */
  function ShortEscape(c: char): Option<char> {
    if c == '\"' then Some('\"')
    else if c == '\\' then Some('\\')
    else if c as int == 8 then Some('b')
    else if c as int == 12 then Some('f')
    else if c == '\n' then Some('n')
    else if c == '\r' then Some('r')
    else if c == '\t' then Some('t')
    else None
  }

  /** Go also escapes the two separators that end a line in JavaScript. */
  predicate LongEscape(d: Dialect, c: char) {
    ShortEscape(c).None? && (c as int < 0x20 || (d.GoEncoder? && (c as int == 0x2028 || c as int == 0x2029)))
  }

  /** One character of a JSON string. */
  function Escape(d: Dialect, c: char): (r: string)
    ensures r != "" && r[0] != '\"'
  {
    if ShortEscape(c).Some? then ['\\', ShortEscape(c).value]
    else if LongEscape(d, c) then ['\\', 'u'] + Hex4(c as int)
    else [c]
  }

  function EscapeAll(d: Dialect, s: string): string {
    if s == "" then "" else Escape(d, s[0]) + EscapeAll(d, s[1..])
  }

  /** `encodeJSONString` and serde's string literal */
  function Quote(d: Dialect, s: string): string {
    "\"" + EscapeAll(d, s) + "\""
  }

  // ---- number literals ----

  predicate NumberChar(c: char) {
    '0' <= c <= '9' || c == '-' || c == '+' || c == '.' || c == 'e' || c == 'E'
  }

  predicate NumberLiteral(s: string) {
    s != "" && (s[0] == '-' || '0' <= s[0] <= '9') && forall i :: 0 <= i < |s| ==> NumberChar(s[i])
  }

  /** Every number in the value carries a number literal. */
  predicate LiteralsOk(v: Json) {
    match v
    case Number(literal) => NumberLiteral(literal)
    case Array(items) => forall i :: 0 <= i < |items| ==> LiteralsOk(items[i])
    case Object(entries) => forall i :: 0 <= i < |entries| ==> LiteralsOk(entries[i].value)
    case _ => true
  }

  // ---- the printer ----

  /** `strings.Join(items, ",")` */
  function Join(items: seq<string>): string {
    if items == [] then "" else if |items| == 1 then items[0] else items[0] + "," + Join(items[1..])
  }

  /** The plain printer, which leaves the order of entries alone. */
  function Render(d: Dialect, v: Json): string
    decreases v, 1
  {
    match v
    case Null => "null"
    case Bool(b) => if b then "true" else "false"
    case Number(literal) => literal
    case String(text) => Quote(d, text)
    case Array(items) => "[" + Join(RenderItems(d, items)) + "]"
    case Object(entries) => "{" + Join(RenderEntries(d, entries)) + "}"
  }

  function RenderItems(d: Dialect, items: seq<Json>): (r: seq<string>)
    ensures |r| == |items|
    decreases items, 0
  {
    if items == [] then [] else [Render(d, items[0])] + RenderItems(d, items[1..])
  }

  function RenderEntries(d: Dialect, entries: seq<Entry<Json>>): (r: seq<string>)
    ensures |r| == |entries|
    decreases entries, 0
  {
    if entries == [] then []
    else [Quote(d, entries[0].key) + ":" + Render(d, entries[0].value)] + RenderEntries(d, entries[1..])
  }

  // ---- reading JSON text ----

  function HexValue(c: char): Option<nat> {
    if '0' <= c <= '9' then Some(c as int - '0' as int)
    else if 'a' <= c <= 'f' then Some(c as int - 'a' as int + 10)
    else if 'A' <= c <= 'F' then Some(c as int - 'A' as int + 10)
    else None
  }

  /** The character of a four-digit escape; a surrogate, which no encoder here writes, is not read. */
  function ReadHex4(s: string): Option<char>
    requires |s| >= 4
  {
    if exists i :: 0 <= i < 4 && HexValue(s[i]).None? then None
    else
      var n := 0x1000 * HexValue(s[0]).value + 0x100 * HexValue(s[1]).value + 0x10 * HexValue(s[2]).value
               + HexValue(s[3]).value;
      if 0xd800 <= n < 0xe000 then None else Some(n as char)
  }

  /** The character behind a backslash and one letter, as section 7 of RFC 8259 lists them. */
  function ShortRead(c: char): Option<char> {
    match c
    case '\"' => Some('\"')
    case '\\' => Some('\\')
    case '/' => Some('/')
    case 'b' => Some(8 as char)
    case 'f' => Some(12 as char)
    case 'n' => Some('\n')
    case 'r' => Some('\r')
    case 't' => Some('\t')
    case _ => None
  }

  function Prepend(c: char, r: Option<(string, string)>): Option<(string, string)> {
    match r
    case None => None
    case Some((text, rest)) => Some(([c] + text, rest))
  }

  /** A string from behind its opening quote: its text, and what follows the closing quote. */
  function ReadString(s: string): (r: Option<(string, string)>)
    ensures r.Some? ==> |r.value.1| < |s|
    decreases |s|
  {
    if s == "" || (s[0] as int) < 0x20 then None
    else if s[0] == '\"' then Some(("", s[1..]))
    else if s[0] != '\\' then Prepend(s[0], ReadString(s[1..]))
    else if |s| >= 2 && ShortRead(s[1]).Some? then Prepend(ShortRead(s[1]).value, ReadString(s[2..]))
    else if |s| >= 6 && s[1] == 'u' && ReadHex4(s[2..]).Some? then Prepend(ReadHex4(s[2..]).value, ReadString(s[6..]))
    else None
  }

  /** How far a number literal reaches. */
  function NumberLength(s: string): (n: nat)
    ensures n <= |s|
  {
    if s == "" || !NumberChar(s[0]) then 0 else 1 + NumberLength(s[1..])
  }

  predicate Starts(s: string, c: char) {
    s != "" && s[0] == c
  }

  /** A reader of JSON text without whitespace, after RFC 8259: the first value, and what follows it. */
  function ReadValue(s: string): (r: Option<(Json, string)>)
    ensures r.Some? ==> |r.value.1| < |s|
    decreases |s|, 0
  {
    if s == "" then None
    else if s[0] == 'n' then if "null" <= s then Some((Json.Null, s[4..])) else None
    else if s[0] == 't' then if "true" <= s then Some((Bool(true), s[4..])) else None
    else if s[0] == 'f' then if "false" <= s then Some((Bool(false), s[5..])) else None
    else if s[0] == '\"' then
      match ReadString(s[1..])
      case None => None
      case Some((text, rest)) => Some((String(text), rest))
    else if s[0] == '[' then
      if Starts(s[1..], ']') then Some((Array([]), s[2..]))
      else
        match ReadItems(s[1..])
        case None => None
        case Some((items, rest)) => Some((Array(items), rest))
    else if s[0] == '{' then
      if Starts(s[1..], '}') then Some((Object([]), s[2..]))
      else
        match ReadEntries(s[1..])
        case None => None
        case Some((entries, rest)) => Some((Object(entries), rest))
    else if s[0] == '-' || '0' <= s[0] <= '9' then Some((Number(s[..NumberLength(s)]), s[NumberLength(s)..]))
    else None
  }

  /** The elements of an array, up to and with its closing bracket. */
  function ReadItems(s: string): (r: Option<(seq<Json>, string)>)
    ensures r.Some? ==> |r.value.1| < |s|
    decreases |s|, 1
  {
    match ReadValue(s)
    case None => None
    case Some((v, rest)) =>
      if Starts(rest, ']') then Some(([v], rest[1..]))
      else if Starts(rest, ',') then
        match ReadItems(rest[1..])
        case None => None
        case Some((items, after)) => Some(([v] + items, after))
      else None
  }

  /** The members of an object, up to and with its closing brace. */
  function ReadEntries(s: string): (r: Option<(seq<Entry<Json>>, string)>)
    ensures r.Some? ==> |r.value.1| < |s|
    decreases |s|, 1
  {
    if !Starts(s, '\"') then None
    else
      match ReadString(s[1..])
      case None => None
      case Some((key, colon)) =>
        if !Starts(colon, ':') then None
        else
          match ReadValue(colon[1..])
          case None => None
          case Some((v, rest)) =>
            if Starts(rest, '}') then Some(([Entry(key, v)], rest[1..]))
            else if Starts(rest, ',') then
              match ReadEntries(rest[1..])
              case None => None
              case Some((entries, after)) => Some(([Entry(key, v)] + entries, after))
            else None
  }

  // ---- what was printed can be read ----

  lemma {:induction false} Assoc(a: string, b: string, c: string, d: string)
    ensures a + b + c + d == a + (b + c + d)
  {
  }

  lemma {:induction false} HexDigitReads(n: nat)
    requires n < 16
    ensures HexValue(HexDigit(n)) == Some(n)
  {
  }

  lemma {:induction false} Hex4Reads(c: char, x: string)
    requires c as int < 0x10000
    ensures ReadHex4(Hex4(c as int) + x) == Some(c)
  {
    var n := c as int;
    var q := n / 16;
    HexDigitReads(q / 16 / 16);
    HexDigitReads(q / 16 % 16);
    HexDigitReads(q % 16);
    HexDigitReads(n % 16);
    assert forall i :: 0 <= i < 4 ==> (Hex4(n) + x)[i] == Hex4(n)[i];
    assert n == 16 * q + n % 16 && q == 16 * (q / 16) + q % 16 && q / 16 == 16 * (q / 16 / 16) + q / 16 % 16;
  }

  lemma {:induction false} ShortEscapeReads(c: char, x: string)
    requires ShortEscape(c).Some?
    ensures ReadString(['\\', ShortEscape(c).value] + x) == Prepend(c, ReadString(x))
  {
    var s := ['\\', ShortEscape(c).value] + x;
    assert s[0] == '\\' && s[1] == ShortEscape(c).value && s[2..] == x;
    assert ShortRead(ShortEscape(c).value) == Some(c);
  }

  lemma {:induction false} LongEscapeReads(c: char, x: string)
    requires c as int < 0x10000
    ensures ReadString(['\\', 'u'] + Hex4(c as int) + x) == Prepend(c, ReadString(x))
  {
    var s := ['\\', 'u'] + Hex4(c as int) + x;
    assert s[0] == '\\' && s[1] == 'u' && s[2..] == Hex4(c as int) + x && s[6..] == x;
    assert ShortRead('u') == None;
    Hex4Reads(c, x);
  }

  /** One escaped character is read as the character it stands for. */
  lemma {:induction false} EscapeReads(d: Dialect, c: char, x: string)
    ensures ReadString(Escape(d, c) + x) == Prepend(c, ReadString(x))
  {
    if ShortEscape(c).Some? {
      ShortEscapeReads(c, x);
    } else if LongEscape(d, c) {
      LongEscapeReads(c, x);
    } else {
      assert ([c] + x)[0] == c && ([c] + x)[1..] == x;
    }
  }

  lemma {:induction false} EscapedReads(d: Dialect, s: string, x: string)
    ensures ReadString(EscapeAll(d, s) + "\"" + x) == Some((s, x))
  {
    if s == "" {
      assert (EscapeAll(d, s) + "\"" + x)[1..] == x;
    } else {
      EscapedReads(d, s[1..], x);
      Assoc(Escape(d, s[0]), EscapeAll(d, s[1..]), "\"", x);
      EscapeReads(d, s[0], EscapeAll(d, s[1..]) + "\"" + x);
      assert s == [s[0]] + s[1..];
    }
  }

  /** A string literal of either encoder is read as the string it was written for, whatever follows it. */
  lemma {:induction false} QuoteReadsBack(d: Dialect, s: string, x: string)
    ensures Quote(d, s) != "" && (Quote(d, s) + x)[0] == '\"' && ReadString((Quote(d, s) + x)[1..]) == Some((s, x))
  {
    assert (Quote(d, s) + x)[1..] == EscapeAll(d, s) + "\"" + x;
    EscapedReads(d, s, x);
  }

  /** Exactly these characters are escaped: quote, backslash, controls, and in Go the two line separators. */
  lemma {:induction false} EscapedIff(d: Dialect, c: char)
    ensures Escape(d, c) != [c] <==>
            c == '\"' || c == '\\' || (c as int) < 0x20 || (d == GoEncoder && c as int in {0x2028, 0x2029})
  {
  }

  /** What may follow a value: nothing, or the punctuation that ends it. */
  predicate Ends(x: string) {
    x == "" || x[0] == ',' || x[0] == ']' || x[0] == '}'
  }

  lemma {:induction false} NumberReads(literal: string, x: string)
    requires forall i :: 0 <= i < |literal| ==> NumberChar(literal[i])
    requires Ends(x)
    ensures NumberLength(literal + x) == |literal|
  {
    if literal == "" {
      assert literal + x == x;
    } else {
      assert (literal + x)[1..] == literal[1..] + x;
      NumberReads(literal[1..], x);
    }
  }

  /** The text of a list after its first element: the remaining elements, the closing bracket, and what follows. */
  function Rest(tail: seq<string>, close: char, x: string): string {
    if tail == [] then [close] + x else "," + (Join(tail) + [close] + x)
  }

  lemma {:induction false} RestEnds(tail: seq<string>, close: char, x: string)
    requires close == ']' || close == '}'
    ensures Ends(Rest(tail, close, x))
  {
  }

  lemma {:induction false} JoinSplits(texts: seq<string>, close: char, x: string)
    requires texts != []
    ensures Join(texts) + [close] + x == texts[0] + Rest(texts[1..], close, x)
  {
    if |texts| > 1 {
      assert texts[0] + "," + Join(texts[1..]) + [close] + x == texts[0] + ("," + (Join(texts[1..]) + [close] + x));
    } else {
      assert texts[0] + [close] + x == texts[0] + ([close] + x);
    }
  }

  lemma {:induction false} ScalarReads(d: Dialect, v: Json, x: string)
    requires LiteralsOk(v) && Ends(x) && !v.Array? && !v.Object?
    ensures ReadValue(Render(d, v) + x) == Some((v, x))
  {
    var s := Render(d, v) + x;
    match v
    case Null => assert s[..4] == "null" && s[4..] == x;
    case Bool(b) =>
      if b {
        assert s[..4] == "true" && s[4..] == x;
      } else {
        assert s[..5] == "false" && s[5..] == x;
      }
    case String(text) => QuoteReadsBack(d, text, x);
    case Number(literal) =>
      NumberReads(literal, x);
      assert s[0] == literal[0] && s[..|literal|] == literal && s[|literal|..] == x;
  }

  /** The first character of a printed value; none of them closes a list. */
  lemma {:induction false} RenderStarts(d: Dialect, v: Json)
    requires LiteralsOk(v)
    ensures Render(d, v) != "" && !Ends(Render(d, v))
  {
  }

  lemma {:induction false} ArrayOpens(inner: string, items: seq<Json>, x: string)
    requires inner != "" && inner[0] != ']' && ReadItems(inner) == Some((items, x))
    ensures ReadValue(['['] + inner) == Some((Array(items), x))
  {
    var s := ['['] + inner;
    assert s[0] == '[' && s[1] == inner[0] && s[1..] == inner;
  }

  lemma {:induction false} ObjectOpens(inner: string, entries: seq<Entry<Json>>, x: string)
    requires inner != "" && inner[0] != '}' && ReadEntries(inner) == Some((entries, x))
    ensures ReadValue(['{'] + inner) == Some((Object(entries), x))
  {
    var s := ['{'] + inner;
    assert s[0] == '{' && s[1] == inner[0] && s[1..] == inner;
  }

  lemma {:induction false} EmptyListsRead(x: string)
    ensures ReadValue("[]" + x) == Some((Array([]), x)) && ReadValue("{}" + x) == Some((Object([]), x))
  {
    assert ("[]" + x)[0] == '[' && ("[]" + x)[1..][0] == ']' && ("[]" + x)[2..] == x;
    assert ("{}" + x)[0] == '{' && ("{}" + x)[1..][0] == '}' && ("{}" + x)[2..] == x;
  }

  /** One member of an object, and how the reader goes on behind it. */
  lemma {:induction false} MemberReads(s: string, key: string, colon: string, v: Json, rest: string)
    requires Starts(s, '\"') && ReadString(s[1..]) == Some((key, colon))
    requires Starts(colon, ':') && ReadValue(colon[1..]) == Some((v, rest))
    ensures Starts(rest, '}') ==> ReadEntries(s) == Some(([Entry(key, v)], rest[1..]))
    ensures Starts(rest, ',') && ReadEntries(rest[1..]).Some? ==>
              ReadEntries(s)
                == Some(([Entry(key, v)] + ReadEntries(rest[1..]).value.0, ReadEntries(rest[1..]).value.1))
  {
  }

  lemma {:induction false} ArrayText(d: Dialect, items: seq<Json>, x: string)
    ensures Render(d, Array(items)) + x == ['['] + (Join(RenderItems(d, items)) + "]" + x)
  {
    Assoc("[", Join(RenderItems(d, items)), "]", x);
  }

  lemma {:induction false} ObjectText(d: Dialect, entries: seq<Entry<Json>>, x: string)
    ensures Render(d, Object(entries)) + x == ['{'] + (Join(RenderEntries(d, entries)) + "}" + x)
  {
    Assoc("{", Join(RenderEntries(d, entries)), "}", x);
  }

  /** What was printed is read back, whatever punctuation follows it. */
  lemma {:induction false} RenderReadsBack(d: Dialect, v: Json, x: string)
    requires LiteralsOk(v) && Ends(x)
    ensures ReadValue(Render(d, v) + x) == Some((v, x))
    decreases v, 1
  {
    match v
    case Array(items) =>
      ArrayText(d, items, x);
      var inner := Join(RenderItems(d, items)) + "]" + x;
      if items == [] {
        assert ['['] + inner == "[]" + x;
        EmptyListsRead(x);
      } else {
        ItemsReadBack(d, items, x);
        JoinSplits(RenderItems(d, items), ']', x);
        RenderStarts(d, items[0]);
        ArrayOpens(inner, items, x);
      }
    case Object(entries) =>
      ObjectText(d, entries, x);
      var inner := Join(RenderEntries(d, entries)) + "}" + x;
      if entries == [] {
        assert ['{'] + inner == "{}" + x;
        EmptyListsRead(x);
      } else {
        EntriesReadBack(d, entries, x);
        JoinSplits(RenderEntries(d, entries), '}', x);
        assert inner[0] == '\"';
        ObjectOpens(inner, entries, x);
      }
    case _ => ScalarReads(d, v, x);
  }

  lemma {:induction false} ItemsReadBack(d: Dialect, vs: seq<Json>, x: string)
    requires vs != [] && forall i :: 0 <= i < |vs| ==> LiteralsOk(vs[i])
    ensures ReadItems(Join(RenderItems(d, vs)) + "]" + x) == Some((vs, x))
    decreases vs, 0
  {
    var tail := vs[1..];
    var rest := Rest(RenderItems(d, tail), ']', x);
    RestEnds(RenderItems(d, tail), ']', x);
    RenderReadsBack(d, vs[0], rest);
    if tail != [] {
      assert forall i :: 0 <= i < |tail| ==> tail[i] == vs[i + 1];
      ItemsReadBack(d, tail, x);
    }
    ItemsReadFromFirst(d, vs, x);
  }

  lemma {:induction false} ItemsReadFromFirst(d: Dialect, vs: seq<Json>, x: string)
    requires vs != []
    requires var rest := Rest(RenderItems(d, vs[1..]), ']', x);
      ReadValue(Render(d, vs[0]) + rest) == Some((vs[0], rest))
    requires vs[1..] != [] ==> ReadItems(Join(RenderItems(d, vs[1..])) + "]" + x) == Some((vs[1..], x))
    ensures ReadItems(Join(RenderItems(d, vs)) + "]" + x) == Some((vs, x))
  {
    FirstOfItems(d, vs[0], vs[1..], x);
    ItemsText(d, vs, x);
    assert vs == [vs[0]] + vs[1..];
  }

  lemma {:induction false} FirstOfItems(d: Dialect, v: Json, tail: seq<Json>, x: string)
    requires var rest := Rest(RenderItems(d, tail), ']', x); ReadValue(Render(d, v) + rest) == Some((v, rest))
    requires tail != [] ==> ReadItems(Join(RenderItems(d, tail)) + "]" + x) == Some((tail, x))
    ensures ReadItems(Render(d, v) + Rest(RenderItems(d, tail), ']', x)) == Some(([v] + tail, x))
  {
    var rest := Rest(RenderItems(d, tail), ']', x);
    if tail == [] {
      assert rest == [']'] + x && rest[1..] == x && [v] + tail == [v];
    } else {
      assert rest[1..] == Join(RenderItems(d, tail)) + "]" + x;
    }
  }

  lemma {:induction false} ItemsText(d: Dialect, vs: seq<Json>, x: string)
    requires vs != []
    ensures Join(RenderItems(d, vs)) + "]" + x == Render(d, vs[0]) + Rest(RenderItems(d, vs[1..]), ']', x)
  {
    JoinSplits(RenderItems(d, vs), ']', x);
    assert RenderItems(d, vs)[1..] == RenderItems(d, vs[1..]);
  }

  lemma {:induction false} EntryText(d: Dialect, e: Entry<Json>, x: string)
    ensures Quote(d, e.key) + ":" + Render(d, e.value) + x == Quote(d, e.key) + (":" + (Render(d, e.value) + x))
  {
  }

  lemma {:induction false} EntriesReadBack(d: Dialect, es: seq<Entry<Json>>, x: string)
    requires es != [] && forall i :: 0 <= i < |es| ==> LiteralsOk(es[i].value)
    ensures ReadEntries(Join(RenderEntries(d, es)) + "}" + x) == Some((es, x))
    decreases es, 0
  {
    var tail := es[1..];
    var rest := Rest(RenderEntries(d, tail), '}', x);
    RestEnds(RenderEntries(d, tail), '}', x);
    RenderReadsBack(d, es[0].value, rest);
    if tail != [] {
      assert forall i :: 0 <= i < |tail| ==> tail[i] == es[i + 1];
      EntriesReadBack(d, tail, x);
    }
    EntriesReadFromFirst(d, es, x);
  }

  lemma {:induction false} EntriesReadFromFirst(d: Dialect, es: seq<Entry<Json>>, x: string)
    requires es != []
    requires var rest := Rest(RenderEntries(d, es[1..]), '}', x);
      ReadValue(Render(d, es[0].value) + rest) == Some((es[0].value, rest))
    requires es[1..] != [] ==> ReadEntries(Join(RenderEntries(d, es[1..])) + "}" + x) == Some((es[1..], x))
    ensures ReadEntries(Join(RenderEntries(d, es)) + "}" + x) == Some((es, x))
  {
    FirstOfEntries(d, es[0], es[1..], x);
    EntriesText(d, es, x);
    assert es == [es[0]] + es[1..];
  }

  lemma {:induction false} FirstOfEntries(d: Dialect, e: Entry<Json>, tail: seq<Entry<Json>>, x: string)
    requires var rest := Rest(RenderEntries(d, tail), '}', x);
      ReadValue(Render(d, e.value) + rest) == Some((e.value, rest))
    requires tail != [] ==> ReadEntries(Join(RenderEntries(d, tail)) + "}" + x) == Some((tail, x))
    ensures ReadEntries(Quote(d, e.key) + (":" + (Render(d, e.value) + Rest(RenderEntries(d, tail), '}', x))))
         == Some(([e] + tail, x))
  {
    var rest := Rest(RenderEntries(d, tail), '}', x);
    FirstEntryReads(d, e, rest);
    if tail == [] {
      assert rest == ['}'] + x && rest[1..] == x && [e] + tail == [e];
    } else {
      assert rest[1..] == Join(RenderEntries(d, tail)) + "}" + x;
    }
  }

  lemma {:induction false} EntriesText(d: Dialect, es: seq<Entry<Json>>, x: string)
    requires es != []
    ensures Join(RenderEntries(d, es)) + "}" + x
         == Quote(d, es[0].key) + (":" + (Render(d, es[0].value) + Rest(RenderEntries(d, es[1..]), '}', x)))
  {
    JoinSplits(RenderEntries(d, es), '}', x);
    assert RenderEntries(d, es)[1..] == RenderEntries(d, es[1..]);
    EntryText(d, es[0], Rest(RenderEntries(d, es[1..]), '}', x));
  }

  lemma {:induction false} FirstEntryReads(d: Dialect, e: Entry<Json>, rest: string)
    requires ReadValue(Render(d, e.value) + rest) == Some((e.value, rest))
    ensures var s := Quote(d, e.key) + (":" + (Render(d, e.value) + rest));
      && (Starts(rest, '}') ==> ReadEntries(s) == Some(([e], rest[1..])))
      && (Starts(rest, ',') && ReadEntries(rest[1..]).Some? ==>
            ReadEntries(s) == Some(([e] + ReadEntries(rest[1..]).value.0, ReadEntries(rest[1..]).value.1)))
  {
    var colon := ":" + (Render(d, e.value) + rest);
    QuoteReadsBack(d, e.key, colon);
    assert colon[1..] == Render(d, e.value) + rest;
    MemberReads(Quote(d, e.key) + colon, e.key, colon, e.value, rest);
  }

  // ---- a sorted and printed value identifies the value ----

  lemma {:induction false} SortKeepsLiterals(v: Json)
    requires LiteralsOk(v)
    ensures LiteralsOk(SortJson(v))
    decreases v
  {
    match v
    case Array(items) =>
      forall i | 0 <= i < |items|
        ensures LiteralsOk(SortItems(items)[i])
      {
        SortItemsAt(items, i);
        SortKeepsLiterals(items[i]);
      }
    case Object(entries) =>
      forall k | 0 <= k < |entries|
        ensures LiteralsOk(SortEntries(entries)[k].value)
      {
        SortEntriesMembers(entries, SortEntries(entries)[k]);
        var i :| 0 <= i < |entries| && SortEntries(entries)[k] == Entry(entries[i].key, SortJson(entries[i].value));
        SortKeepsLiterals(entries[i].value);
      }
    case _ =>
  }

  /** Two values, sorted and printed, give one text exactly when they differ only in object key order, at any depth. */
  lemma {:induction false} SortedTextIdentifies(d: Dialect, a: Json, b: Json)
    requires WellFormed(a) && WellFormed(b) && LiteralsOk(a) && LiteralsOk(b)
    ensures Render(d, SortJson(a)) == Render(d, SortJson(b)) <==> SameUpToOrder(a, b)
  {
    SortIsCanonical(a, b);
    if Render(d, SortJson(a)) == Render(d, SortJson(b)) {
      SortKeepsLiterals(a);
      SortKeepsLiterals(b);
      RenderReadsBack(d, SortJson(a), "");
      RenderReadsBack(d, SortJson(b), "");
    }
  }
}
