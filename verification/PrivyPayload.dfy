/**
 The Privy authorization payload: the canonical JSON text whose bytes get signed. The text identifies the
 request, up to object key order and the one collapse the format prescribes.
 */
module PrivyPayload {
  import opened Core
  import opened CanonicalJson
  import opened JsonText
  import Idempotency

  // ---- the canonical printer ----

  /** `canonicalizeJSON`: entries are ordered by key and every part is printed without whitespace. */
  function Canonicalize(v: Json): string
    decreases v, 1
  {
    match v
    case Null => "null"
    case Bool(b) => if b then "true" else "false"
    case Number(literal) => literal
    case String(text) => Quote(GoEncoder, text)
    case Array(items) => "[" + Join(CanonicalItems(items)) + "]"
    case Object(entries) => "{" + Join(EntryTexts(CanonicalEntries(entries))) + "}"
  }

  function CanonicalItems(items: seq<Json>): seq<string>
    decreases items, 0
  {
    if items == [] then [] else [Canonicalize(items[0])] + CanonicalItems(items[1..])
  }

  /** The printed values, in key order. */
  function CanonicalEntries(entries: seq<Entry<Json>>): seq<Entry<string>>
    decreases entries, 0
  {
    if entries == [] then []
    else Insert(Entry(entries[0].key, Canonicalize(entries[0].value)), CanonicalEntries(entries[1..]))
  }

  function EntryTexts(entries: seq<Entry<string>>): seq<string> {
    if entries == [] then [] else [Quote(GoEncoder, entries[0].key) + ":" + entries[0].value] + EntryTexts(entries[1..])
  }

  // ---- printing canonically is sorting, then printing ----

  function RenderValues(entries: seq<Entry<Json>>): (r: seq<Entry<string>>)
    ensures |r| == |entries|
  {
    seq(|entries|, i requires 0 <= i < |entries| => Entry(entries[i].key, Render(GoEncoder, entries[i].value)))
  }

  lemma {:induction false} InsertThenRender(e: Entry<Json>, entries: seq<Entry<Json>>)
    ensures RenderValues(Insert(e, entries)) == Insert(Entry(e.key, Render(GoEncoder, e.value)), RenderValues(entries))
  {
    if entries != [] && !Less(e.key, entries[0].key) {
      InsertThenRender(e, entries[1..]);
      assert RenderValues(entries)[1..] == RenderValues(entries[1..]);
      assert RenderValues([entries[0]] + Insert(e, entries[1..])) ==
          [RenderValues(entries)[0]] + RenderValues(Insert(e, entries[1..]));
    }
  }

  lemma {:induction false} EntryTextsOfRendered(entries: seq<Entry<Json>>)
    ensures EntryTexts(RenderValues(entries)) == RenderEntries(GoEncoder, entries)
  {
    if entries != [] {
      assert RenderValues(entries)[1..] == RenderValues(entries[1..]);
      EntryTextsOfRendered(entries[1..]);
    }
  }

  lemma {:induction false} CanonicalizeIsRenderOfSort(v: Json)
    ensures Canonicalize(v) == Render(GoEncoder, SortJson(v))
    decreases v, 1
  {
    match v
    case Array(items) => CanonicalItemsAreRendered(items);
    case Object(entries) =>
      CanonicalEntriesAreRendered(entries);
      EntryTextsOfRendered(SortEntries(entries));
    case _ =>
  }

  lemma {:induction false} CanonicalItemsAreRendered(items: seq<Json>)
    ensures CanonicalItems(items) == RenderItems(GoEncoder, SortItems(items))
    decreases items, 0
  {
    if items != [] {
      CanonicalizeIsRenderOfSort(items[0]);
      CanonicalItemsAreRendered(items[1..]);
      assert SortItems(items)[1..] == SortItems(items[1..]);
    }
  }

  lemma {:induction false} CanonicalEntriesAreRendered(entries: seq<Entry<Json>>)
    ensures CanonicalEntries(entries) == RenderValues(SortEntries(entries))
    decreases entries, 0
  {
    if entries != [] {
      CanonicalizeIsRenderOfSort(entries[0].value);
      CanonicalEntriesAreRendered(entries[1..]);
      InsertThenRender(Entry(entries[0].key, SortJson(entries[0].value)), SortEntries(entries[1..]));
    }
  }

  /** Two values print to the same canonical text exactly when they differ only in object key order, at any depth. */
  lemma {:induction false} CanonicalTextIdentifies(a: Json, b: Json)
    requires WellFormed(a) && WellFormed(b) && LiteralsOk(a) && LiteralsOk(b)
    ensures Canonicalize(a) == Canonicalize(b) <==> SameUpToOrder(a, b)
  {
    CanonicalizeIsRenderOfSort(a);
    CanonicalizeIsRenderOfSort(b);
    SortedTextIdentifies(GoEncoder, a, b);
  }

  // ---- the payload ----

  datatype Request = Request(version: int, verb: string, url: string, body: Json, headers: seq<Entry<Json>>)

  /** `strconv.Itoa` */
  function Itoa(n: int): string {
    if n < 0 then "-" + Digits(-n) else Digits(n)
  }

  function Digits(n: nat): (r: string)
    ensures |r| == |Idempotency.Decimal(n)|
    ensures forall i :: 0 <= i < |r| ==> r[i] == Idempotency.Decimal(n)[i] as char && '0' <= r[i] <= '9'
  {
    var d := Idempotency.Decimal(n);
    seq(|d|, i requires 0 <= i < |d| => d[i] as char)
  }

  lemma {:induction false} DigitsInjective(m: nat, n: nat)
    requires Digits(m) == Digits(n)
    ensures m == n
  {
    var d, e := Idempotency.Decimal(m), Idempotency.Decimal(n);
    assert |d| == |e|;
    forall i | 0 <= i < |d|
      ensures d[i] == e[i]
    {
      assert Digits(m)[i] == Digits(n)[i];
    }
    Idempotency.DecimalInjective(m, n);
  }

  lemma {:induction false} ItoaInjective(m: int, n: int)
    requires Itoa(m) == Itoa(n)
    ensures m == n
  {
    assert Itoa(m)[0] == Itoa(n)[0];
    if m < 0 {
      assert Itoa(m)[1..] == Digits(-m) && Itoa(n)[1..] == Digits(-n);
      DigitsInjective(-m, -n);
    } else {
      DigitsInjective(m, n);
    }
  }

  /** An empty-object body is sent as the empty string. */
  function Collapse(body: Json): Json {
    if body == Object([]) then String("") else body
  }

  function PayloadEntries(r: Request): seq<Entry<Json>> {
    [Entry("version", Number(Itoa(r.version))), Entry("method", String(r.verb)), Entry("url", String(r.url)),
     Entry("body", Collapse(r.body)), Entry("headers", Object(r.headers))]
  }

  /** `formatAuthorizationSignaturePayload` */
  function Payload(r: Request): string {
    Canonicalize(Object(PayloadEntries(r)))
  }

  predicate GoodRequest(r: Request) {
    WellFormed(r.body) && LiteralsOk(r.body) && WellFormed(Object(r.headers)) && LiteralsOk(Object(r.headers))
  }

  lemma {:induction false} PayloadIsGood(r: Request)
    requires GoodRequest(r)
    ensures WellFormed(Object(PayloadEntries(r))) && LiteralsOk(Object(PayloadEntries(r)))
  {
    var es := PayloadEntries(r);
    KeysAreDistinct();
    assert NumberLiteral(Itoa(r.version));
    forall i | 0 <= i < |es|
      ensures WellFormed(es[i].value) && LiteralsOk(es[i].value)
    {
    }
    forall i, j | 0 <= i < j < |es|
      ensures es[i].key != es[j].key
    {
    }
  }

  lemma {:induction false} KeysAreDistinct()
    ensures |"version"| == 7 && |"method"| == 6 && |"url"| == 3 && |"body"| == 4 && |"headers"| == 7
    ensures "version"[0] != "headers"[0]
  {
  }

  /** The entries of two payloads pair up in place: there is only one entry per key. */
  lemma {:induction false} PayloadsPairUp(q: Request, r: Request)
    ensures SameUpToOrder(Object(PayloadEntries(q)), Object(PayloadEntries(r))) <==>
            forall i :: 0 <= i < 5 ==> SameUpToOrder(PayloadEntries(q)[i].value, PayloadEntries(r)[i].value)
  {
    OneEntryPerKey(q, r);
    var es, fs := PayloadEntries(q), PayloadEntries(r);
    if SameUpToOrder(Object(es), Object(fs)) {
      forall i | 0 <= i < 5
        ensures SameUpToOrder(es[i].value, fs[i].value)
      {
        var j :| 0 <= j < |fs| && fs[j].key == es[i].key && SameUpToOrder(es[i].value, fs[j].value);
        assert j == i;
      }
    }
    if forall i :: 0 <= i < 5 ==> SameUpToOrder(es[i].value, fs[i].value) {
      forall i | 0 <= i < |es|
        ensures exists j :: 0 <= j < |fs| && fs[j].key == es[i].key && SameUpToOrder(es[i].value, fs[j].value)
      {
        assert fs[i].key == es[i].key;
      }
    }
  }

  lemma {:induction false} OneEntryPerKey(q: Request, r: Request)
    ensures forall i, j :: 0 <= i < 5 && 0 <= j < 5 ==>
      (PayloadEntries(q)[i].key == PayloadEntries(r)[j].key <==> i == j)
  {
    KeysAreDistinct();
  }

  /** Bodies the payload tells apart only when the format says so: an empty object reads as the empty string. */
  ghost predicate SameBody(a: Json, b: Json) {
    SameUpToOrder(a, b) || (a in {Object([]), String("")} && b in {Object([]), String("")})
  }

  lemma {:induction false} CollapsedBodies(a: Json, b: Json)
    ensures SameUpToOrder(Collapse(a), Collapse(b)) <==> SameBody(a, b)
  {
  }

  /**
   The signed text identifies the request: equal payloads have equal version, method and url, the same headers,
   and the same body up to the collapse.
   */
  lemma {:induction false} PayloadIdentifies(q: Request, r: Request)
    requires GoodRequest(q) && GoodRequest(r)
    ensures Payload(q) == Payload(r) <==>
      && q.version == r.version && q.verb == r.verb && q.url == r.url
      && SameBody(q.body, r.body)
      && SameUpToOrder(Object(q.headers), Object(r.headers))
  {
    PayloadIsGood(q);
    PayloadIsGood(r);
    CanonicalTextIdentifies(Object(PayloadEntries(q)), Object(PayloadEntries(r)));
    PayloadsPairUp(q, r);
    PayloadValues(q, r);
    CollapsedBodies(q.body, r.body);
    VersionsMatch(q.version, r.version);
  }

  lemma {:induction false} VersionsMatch(m: int, n: int)
    ensures SameUpToOrder(Number(Itoa(m)), Number(Itoa(n))) <==> m == n
  {
    if Itoa(m) == Itoa(n) {
      ItoaInjective(m, n);
    }
  }

  lemma {:induction false} PayloadValues(q: Request, r: Request)
    ensures (forall i :: 0 <= i < 5 ==> SameUpToOrder(PayloadEntries(q)[i].value, PayloadEntries(r)[i].value)) <==>
      && SameUpToOrder(Number(Itoa(q.version)), Number(Itoa(r.version)))
      && q.verb == r.verb && q.url == r.url
      && SameUpToOrder(Collapse(q.body), Collapse(r.body))
      && SameUpToOrder(Object(q.headers), Object(r.headers))
  {
    var es, fs := PayloadEntries(q), PayloadEntries(r);
    assert SameUpToOrder(es[1].value, fs[1].value) <==> q.verb == r.verb;
    assert SameUpToOrder(es[2].value, fs[2].value) <==> q.url == r.url;
    assert es[0].value == Number(Itoa(q.version)) && fs[0].value == Number(Itoa(r.version));
    assert es[3].value == Collapse(q.body) && fs[3].value == Collapse(r.body);
    assert es[4].value == Object(q.headers) && fs[4].value == Object(r.headers);
  }

  // ---- what the signed text says ----

  /** The number a run of decimal digits spells. */
  function DigitsValue(t: string): int {
    if t == "" then 0 else DigitsValue(t[..|t| - 1]) * 10 + t[|t| - 1] as int - '0' as int
  }

  function SignedValue(t: string): int {
    if t != "" && t[0] == '-' then -DigitsValue(t[1..]) else DigitsValue(t)
  }

  lemma {:induction false} SameDigitsSameValue(t: string, digits: Bytes)
    requires |t| == |digits| && forall i :: 0 <= i < |t| ==> t[i] as int == digits[i]
    ensures DigitsValue(t) == Idempotency.DecimalValue(digits)
  {
    if t != "" {
      SameDigitsSameValue(t[..|t| - 1], digits[..|digits| - 1]);
    }
  }

  lemma {:induction false} ItoaSpells(n: int)
    ensures SignedValue(Itoa(n)) == n
  {
    var m := if n < 0 then -n else n;
    Idempotency.DecimalRoundTrip(m);
    SameDigitsSameValue(Digits(m), Idempotency.Decimal(m));
    assert n < 0 ==> Itoa(n)[1..] == Digits(m);
  }

  lemma {:induction false} PayloadHas(r: Request, i: nat)
    requires i < 5
    ensures var e := PayloadEntries(r)[i]; Entry(e.key, SortJson(e.value)) in SortEntries(PayloadEntries(r))
    ensures SameUpToOrder(PayloadEntries(r)[i].value, SortJson(PayloadEntries(r)[i].value))
  {
    var e := PayloadEntries(r)[i];
    SortEntriesMembers(PayloadEntries(r), Entry(e.key, SortJson(e.value)));
    SortOnlyReorders(e.value);
  }

  /**
   What the signed text says, to any reader of JSON: one object with five members in ascending key order, which are the
   version, the method, the url, the body (the empty string for an empty object) and the headers.
   */
  lemma {:induction false} PayloadReadsBack(r: Request) returns (es: seq<Entry<Json>>)
    requires GoodRequest(r)
    ensures ReadValue(Payload(r)) == Some((Object(es), "")) && KeysAscend(Object(es)) && |es| == 5
    ensures exists t :: Entry("version", Number(t)) in es && SignedValue(t) == r.version
    ensures Entry("method", String(r.verb)) in es && Entry("url", String(r.url)) in es
    ensures exists b :: Entry("body", b) in es && SameUpToOrder(if r.body == Object([]) then String("") else r.body, b)
    ensures exists h :: Entry("headers", h) in es && SameUpToOrder(Object(r.headers), h)
  {
    var v := Object(PayloadEntries(r));
    es := SortEntries(PayloadEntries(r));
    PayloadIsGood(r);
    CanonicalizeIsRenderOfSort(v);
    SortedKeysAscend(v);
    SortKeepsLiterals(v);
    RenderReadsBack(GoEncoder, SortJson(v), "");
    assert Render(GoEncoder, SortJson(v)) + "" == Payload(r);
    PayloadMembers(r);
    ItoaSpells(r.version);
  }

  lemma {:induction false} PayloadMembers(r: Request)
    ensures var es := SortEntries(PayloadEntries(r));
      && Entry("version", Number(Itoa(r.version))) in es
      && Entry("method", String(r.verb)) in es && Entry("url", String(r.url)) in es
      && Entry("body", SortJson(Collapse(r.body))) in es && SameUpToOrder(Collapse(r.body), SortJson(Collapse(r.body)))
      && Entry("headers", SortJson(Object(r.headers))) in es
      && SameUpToOrder(Object(r.headers), SortJson(Object(r.headers)))
  {
    PayloadHas(r, 0);
    PayloadHas(r, 1);
    PayloadHas(r, 2);
    PayloadHas(r, 3);
    PayloadHas(r, 4);
  }
}
