/**
 Idempotency keys: a version-4 UUID cut from the digest of a namespaced pre-image. The pre-images are
 shown to be injective in the terms they name, and the UUID to forget exactly six bits of its input.
 */
module Idempotency {
  import opened Core

  const COLON: byte := 58
  const PIPE: byte := 124

  // ---- text as bytes ----

  /** The bytes of an ASCII literal. */
  function Ascii(s: string): (r: Bytes)
    ensures |r| == |s|
    ensures forall i :: 0 <= i < |s| ==> r[i] == (s[i] as int) % 256
  {
    seq(|s|, i requires 0 <= i < |s| => (s[i] as int) % 256)
  }

  function Decimal(n: nat): (r: Bytes)
    ensures r != [] && forall i :: 0 <= i < |r| ==> 48 <= r[i] <= 57
  {
    if n < 10 then [48 + n] else Decimal(n / 10) + [48 + n % 10]
  }

  function DecimalValue(digits: Bytes): int {
    if digits == [] then 0 else DecimalValue(digits[..|digits| - 1]) * 10 + digits[|digits| - 1] - 48
  }

  lemma {:induction false} DecimalRoundTrip(n: nat)
    ensures DecimalValue(Decimal(n)) == n
  {
    if n >= 10 {
      DecimalRoundTrip(n / 10);
      assert Decimal(n)[..|Decimal(n)| - 1] == Decimal(n / 10);
    } else {
      assert DecimalValue([]) == 0;
      assert Decimal(n)[..0] == [];
    }
  }

  lemma {:induction false} DecimalInjective(a: nat, b: nat)
    requires Decimal(a) == Decimal(b)
    ensures a == b
  {
    DecimalRoundTrip(a);
    DecimalRoundTrip(b);
  }

  /** Text up to the first delimiter can be read back, whatever follows it. */
  lemma {:induction false} Delimited(x: Bytes, xs: Bytes, y: Bytes, ys: Bytes, d: byte)
    requires x + [d] + xs == y + [d] + ys
    requires d !in x && d !in y
    ensures x == y && xs == ys
  {
    var whole := x + [d] + xs;
    assert whole[|x|] == d && whole[|y|] == d;
    assert x == whole[..|x|] && y == whole[..|y|];
    assert xs == whole[|x| + 1..] && ys == whole[|y| + 1..];
  }

  lemma {:induction false} SameHead(head: Bytes, xs: Bytes, ys: Bytes)
    requires head + xs == head + ys
    ensures xs == ys
  {
    assert xs == (head + xs)[|head|..];
    assert ys == (head + ys)[|head|..];
  }

  // ---- Crossmint ----

  /** `namespaced_key_input`: an absent locator reads as the empty one. */
  function CrossmintPreimage(locator: Option<Bytes>, message: Bytes): Bytes {
    var l := if locator.Some? then locator.value else [];
    Ascii("crossmint:solana:") + Decimal(|l|) + [COLON] + l + [COLON] + message
  }

  /** The length prefix makes the pre-image injective in locator and message, colons in the locator included. */
  lemma {:induction false} CrossmintPreimageInjective(l1: Bytes, m1: Bytes, l2: Bytes, m2: Bytes)
    requires CrossmintPreimage(Some(l1), m1) == CrossmintPreimage(Some(l2), m2)
    ensures l1 == l2 && m1 == m2
  {
    var head := Ascii("crossmint:solana:");
    var t1, t2 := l1 + [COLON] + m1, l2 + [COLON] + m2;
    assert CrossmintPreimage(Some(l1), m1) == head + (Decimal(|l1|) + [COLON] + t1);
    assert CrossmintPreimage(Some(l2), m2) == head + (Decimal(|l2|) + [COLON] + t2);
    SameHead(head, Decimal(|l1|) + [COLON] + t1, Decimal(|l2|) + [COLON] + t2);
    Delimited(Decimal(|l1|), t1, Decimal(|l2|), t2, COLON);
    DecimalInjective(|l1|, |l2|);
    assert l1 == t1[..|l1|] && l2 == t2[..|l2|];
    assert m1 == t1[|l1| + 1..] && m2 == t2[|l2| + 1..];
  }

  // ---- Fordefi ----

  datatype PushMode = Auto | Manual

  datatype Chain = Devnet | Mainnet

  datatype PriorityLevel = Low | Medium | High

  datatype Fee = Custom(unitPrice: Option<Bytes>, priorityFee: Option<Bytes>) | Priority(level: PriorityLevel)

  datatype Terms = Terms(mode: PushMode, chain: Chain, vault: Bytes, fee: Option<Fee>)

  function OrEmpty(text: Option<Bytes>): Bytes {
    if text.Some? then text.value else []
  }

  function LevelText(level: PriorityLevel): Bytes {
    match level
    case Low => Ascii("low")
    case Medium => Ascii("medium")
    case High => Ascii("high")
  }

  /** `canonical_fee` */
  function CanonicalFee(fee: Option<Fee>): Bytes {
    match fee
    case None => []
    case Some(Custom(u, p)) => Ascii("custom") + [PIPE] + ([PIPE] + (OrEmpty(u) + [PIPE] + OrEmpty(p)))
    case Some(Priority(level)) => Ascii("priority") + [PIPE] + (LevelText(level) + [PIPE] + [PIPE])
  }

  function ModeText(mode: PushMode): Bytes {
    if mode.Auto? then Ascii("auto") else Ascii("manual")
  }

  function ChainText(chain: Chain): Bytes {
    if chain.Devnet? then Ascii("solana_devnet") else Ascii("solana_mainnet")
  }

  /** Everything `submit_solana_transaction` puts in front of the message. */
  function Namespace(t: Terms): Bytes {
    Ascii("fordefi:solana:") + (ModeText(t.mode) + [COLON] + (ChainText(t.chain) + [COLON]
      + (t.vault + [COLON] + (CanonicalFee(t.fee) + [COLON]))))
  }

  function FordefiPreimage(t: Terms, message: Bytes): Bytes {
    Namespace(t) + message
  }

  /** Fee strings free of `d`. */
  predicate FeeFree(fee: Option<Fee>, d: byte) {
    fee.Some? && fee.value.Custom? ==> d !in OrEmpty(fee.value.unitPrice) && d !in OrEmpty(fee.value.priorityFee)
  }

  /** Fees that differ at most in an absent string against an empty one. */
  predicate SameFee(f: Option<Fee>, g: Option<Fee>) {
    match (f, g)
    case (None, None) => true
    case (Some(Custom(u1, p1)), Some(Custom(u2, p2))) => OrEmpty(u1) == OrEmpty(u2) && OrEmpty(p1) == OrEmpty(p2)
    case (Some(Priority(l1)), Some(Priority(l2))) => l1 == l2
    case _ => false
  }

  lemma {:induction false} CanonicalFeeHasNoColon(fee: Option<Fee>)
    requires FeeFree(fee, COLON)
    ensures COLON !in CanonicalFee(fee)
  {
    match fee
    case None =>
    case Some(Custom(u, p)) =>
      AsciiWithout("custom", ':');
    case Some(Priority(level)) =>
      AsciiWithout("priority", ':');
      LevelTextWithout(level);
  }

  lemma {:induction false} AsciiWithout(s: string, c: char)
    requires (c as int) < 128 && c !in s && forall i :: 0 <= i < |s| ==> (s[i] as int) < 128
    ensures (c as int) !in Ascii(s)
  {
  }

  lemma {:induction false} LevelTextWithout(level: PriorityLevel)
    ensures COLON !in LevelText(level) && PIPE !in LevelText(level)
  {
    var s := match level case Low => "low" case Medium => "medium" case High => "high";
    AsciiWithout(s, ':');
    AsciiWithout(s, '|');
  }

  lemma {:induction false} ModeAndChainWithoutColon(mode: PushMode, chain: Chain)
    ensures COLON !in ModeText(mode) && COLON !in ChainText(chain)
  {
    AsciiWithout(if mode.Auto? then "auto" else "manual", ':');
    AsciiWithout(if chain.Devnet? then "solana_devnet" else "solana_mainnet", ':');
  }

  lemma {:induction false} LevelTextInjective(a: PriorityLevel, b: PriorityLevel)
    requires LevelText(a) == LevelText(b)
    ensures a == b
  {
    assert |LevelText(Low)| == 3 && |LevelText(Medium)| == 6 && |LevelText(High)| == 4;
  }

  /** Two pipe-free fees render alike exactly when they are the same up to absent against empty. */
  lemma {:induction false} CanonicalFeeInjective(f: Option<Fee>, g: Option<Fee>)
    requires FeeFree(f, PIPE) && FeeFree(g, PIPE)
    ensures CanonicalFee(f) == CanonicalFee(g) <==> SameFee(f, g)
  {
    if CanonicalFee(f) == CanonicalFee(g) && f.Some? && g.Some? {
      var a, b := f.value, g.value;
      if a.Custom? && b.Custom? {
        var r1 := OrEmpty(a.unitPrice) + [PIPE] + OrEmpty(a.priorityFee);
        var r2 := OrEmpty(b.unitPrice) + [PIPE] + OrEmpty(b.priorityFee);
        var head := Ascii("custom") + [PIPE];
        SameHead(head, [PIPE] + r1, [PIPE] + r2);
        SameHead([PIPE], r1, r2);
        Delimited(OrEmpty(a.unitPrice), OrEmpty(a.priorityFee), OrEmpty(b.unitPrice), OrEmpty(b.priorityFee), PIPE);
      } else if a.Priority? && b.Priority? {
        var head := Ascii("priority") + [PIPE];
        SameHead(head, LevelText(a.level) + [PIPE] + [PIPE], LevelText(b.level) + [PIPE] + [PIPE]);
        LevelTextWithout(a.level);
        LevelTextWithout(b.level);
        Delimited(LevelText(a.level), [PIPE], LevelText(b.level), [PIPE], PIPE);
        LevelTextInjective(a.level, b.level);
      } else {
        KindsDiffer(a, b);
      }
    }
  }

  lemma {:induction false} KindsDiffer(a: Fee, b: Fee)
    requires a.Custom? != b.Custom?
    ensures CanonicalFee(Some(a)) != CanonicalFee(Some(b))
  {
    assert CanonicalFee(Some(a))[0] == Ascii(if a.Custom? then "custom" else "priority")[0];
    assert CanonicalFee(Some(b))[0] == Ascii(if b.Custom? then "custom" else "priority")[0];
  }

  /** What follows the vault and the fee in a pre-image. */
  function AfterChain(t: Terms, message: Bytes): Bytes {
    t.vault + [COLON] + (CanonicalFee(t.fee) + [COLON] + message)
  }

  lemma {:induction false} PreimageParts(t: Terms, message: Bytes)
    ensures FordefiPreimage(t, message)
         == Ascii("fordefi:solana:") +
             (ModeText(t.mode) + [COLON] + (ChainText(t.chain) + [COLON] + AfterChain(t, message)))
  {
    var m, c, v, f := ModeText(t.mode), ChainText(t.chain), t.vault, CanonicalFee(t.fee);
    assert FordefiPreimage(t, message)
        == Ascii("fordefi:solana:") + (m + [COLON] + (c + [COLON] + (v + [COLON] + (f + [COLON])))) + message;
  }

  lemma {:induction false} ModeAndChainReadBack(t1: Terms, m1: Bytes, t2: Terms, m2: Bytes)
    requires FordefiPreimage(t1, m1) == FordefiPreimage(t2, m2)
    ensures t1.mode == t2.mode && t1.chain == t2.chain && AfterChain(t1, m1) == AfterChain(t2, m2)
  {
    PreimageParts(t1, m1);
    PreimageParts(t2, m2);
    var b1, b2 := AfterChain(t1, m1), AfterChain(t2, m2);
    var c1, c2 := ChainText(t1.chain) + [COLON] + b1, ChainText(t2.chain) + [COLON] + b2;
    SameHead(Ascii("fordefi:solana:"), ModeText(t1.mode) + [COLON] + c1, ModeText(t2.mode) + [COLON] + c2);
    ModeAndChainWithoutColon(t1.mode, t1.chain);
    ModeAndChainWithoutColon(t2.mode, t2.chain);
    Delimited(ModeText(t1.mode), c1, ModeText(t2.mode), c2, COLON);
    Delimited(ChainText(t1.chain), b1, ChainText(t2.chain), b2, COLON);
    TextsDiffer();
  }

  lemma {:induction false} TextsDiffer()
    ensures ModeText(Auto) != ModeText(Manual) && ChainText(Devnet) != ChainText(Mainnet)
  {
    assert |ModeText(Auto)| == 4 && |ModeText(Manual)| == 6;
    assert |ChainText(Devnet)| == 13 && |ChainText(Mainnet)| == 14;
  }

  /** With colon-free vault ids and fee strings, the pre-image names its terms and its message. */
  lemma {:induction false} FordefiPreimageInjective(t1: Terms, m1: Bytes, t2: Terms, m2: Bytes)
    requires COLON !in t1.vault && FeeFree(t1.fee, COLON)
    requires COLON !in t2.vault && FeeFree(t2.fee, COLON)
    requires FordefiPreimage(t1, m1) == FordefiPreimage(t2, m2)
    ensures t1.mode == t2.mode && t1.chain == t2.chain && t1.vault == t2.vault
    ensures CanonicalFee(t1.fee) == CanonicalFee(t2.fee) && m1 == m2
  {
    ModeAndChainReadBack(t1, m1, t2, m2);
    var a1, a2 := CanonicalFee(t1.fee) + [COLON] + m1, CanonicalFee(t2.fee) + [COLON] + m2;
    Delimited(t1.vault, a1, t2.vault, a2, COLON);
    CanonicalFeeHasNoColon(t1.fee);
    CanonicalFeeHasNoColon(t2.fee);
    Delimited(CanonicalFee(t1.fee), m1, CanonicalFee(t2.fee), m2, COLON);
  }

  /** The vault and the fee as a namespace renders them. */
  function VaultAndFee(t: Terms): Bytes {
    t.vault + [COLON] + (CanonicalFee(t.fee) + [COLON])
  }

  lemma {:induction false} AfterChainParts(t: Terms, message: Bytes)
    ensures AfterChain(t, message) == VaultAndFee(t) + message
  {
    var v, f := t.vault, CanonicalFee(t.fee);
    assert v + [COLON] + (f + [COLON] + message) == v + [COLON] + (f + [COLON]) + message;
  }

  /** A text with just two colons, one of them last, has no proper prefix with two colons, one of them last. */
  lemma {:induction false} TwoColonsAreAll(x: Bytes, y: Bytes, v: Bytes, f: Bytes)
    requires COLON !in x && COLON !in y
    requires v + [COLON] + (f + [COLON]) <= x + [COLON] + (y + [COLON])
    ensures v + [COLON] + (f + [COLON]) == x + [COLON] + (y + [COLON])
  {
    var short, whole := v + [COLON] + (f + [COLON]), x + [COLON] + (y + [COLON]);
    assert whole[|v|] == short[|v|] == COLON;
    assert whole[|short| - 1] == short[|short| - 1] == COLON;
    ColonPlaces(x, y, |v|);
    ColonPlaces(x, y, |short| - 1);
  }

  lemma {:induction false} ColonPlaces(x: Bytes, y: Bytes, i: nat)
    requires COLON !in x && COLON !in y
    requires i < |x| + |y| + 2 && (x + [COLON] + (y + [COLON]))[i] == COLON
    ensures i == |x| || i == |x| + |y| + 1
  {
  }

  /** Terms whose rendered vault and fee another's rendering starts with collide with it. */
  lemma {:induction false} PrefixCollides(t1: Terms, t2: Terms)
    requires t1.mode == t2.mode && t1.chain == t2.chain && VaultAndFee(t1) <= VaultAndFee(t2)
    ensures FordefiPreimage(t1, VaultAndFee(t2)[|VaultAndFee(t1)|..]) == FordefiPreimage(t2, [])
  {
    var m := VaultAndFee(t2)[|VaultAndFee(t1)|..];
    PreimageParts(t1, m);
    PreimageParts(t2, []);
    AfterChainParts(t1, m);
    AfterChainParts(t2, []);
    PrefixExtends(VaultAndFee(t1), VaultAndFee(t2));
  }

  /**
   Any two terms collide, on some pair of messages, exactly when mode and chain agree and one rendering of vault and fee
   starts with the other.
   */
  lemma {:induction false} FordefiCollisionIffPrefix(t1: Terms, t2: Terms)
    ensures (exists m1, m2 :: FordefiPreimage(t1, m1) == FordefiPreimage(t2, m2)) <==>
            && t1.mode == t2.mode && t1.chain == t2.chain
            && (VaultAndFee(t1) <= VaultAndFee(t2) || VaultAndFee(t2) <= VaultAndFee(t1))
  {
    if t1.mode == t2.mode && t1.chain == t2.chain && VaultAndFee(t1) <= VaultAndFee(t2) {
      PrefixCollides(t1, t2);
    } else if t1.mode == t2.mode && t1.chain == t2.chain && VaultAndFee(t2) <= VaultAndFee(t1) {
      PrefixCollides(t2, t1);
    }
    forall m1, m2 | FordefiPreimage(t1, m1) == FordefiPreimage(t2, m2)
      ensures t1.mode == t2.mode && t1.chain == t2.chain
      ensures VaultAndFee(t1) <= VaultAndFee(t2) || VaultAndFee(t2) <= VaultAndFee(t1)
    {
      ModeAndChainReadBack(t1, m1, t2, m2);
      AfterChainParts(t1, m1);
      AfterChainParts(t2, m2);
      CommonText(VaultAndFee(t1), m1, VaultAndFee(t2), m2);
    }
  }

  /** For terms free of colons it is their rendering that the other's must start with. */
  lemma {:induction false} ColonFreeTermsCollideIff(t1: Terms, t2: Terms)
    requires COLON !in t1.vault && FeeFree(t1.fee, COLON)
    ensures (exists m1, m2 :: FordefiPreimage(t1, m1) == FordefiPreimage(t2, m2)) <==>
            t1.mode == t2.mode && t1.chain == t2.chain && VaultAndFee(t1) <= VaultAndFee(t2)
  {
    FordefiCollisionIffPrefix(t1, t2);
    CanonicalFeeHasNoColon(t1.fee);
    if VaultAndFee(t2) <= VaultAndFee(t1) {
      TwoColonsAreAll(t1.vault, CanonicalFee(t1.fee), t2.vault, CanonicalFee(t2.fee));
    }
  }

  lemma {:induction false} PrefixExtends(a: Bytes, b: Bytes)
    requires a <= b
    ensures a + b[|a|..] == b + []
  {
  }

  lemma {:induction false} CommonText(a: Bytes, x: Bytes, b: Bytes, y: Bytes)
    requires a + x == b + y
    ensures a <= b || b <= a
  {
    assert a == (a + x)[..|a|] && b == (b + y)[..|b|];
  }

  /** Without the colon-free condition the claim is false: vault `v` and vault `v:` collide. */
  lemma {:induction false} ColonInVaultCollides(v: Bytes)
    ensures FordefiPreimage(Terms(Auto, Mainnet, v, None), [COLON])
         == FordefiPreimage(Terms(Auto, Mainnet, v + [COLON], None), [])
  {
    var head := Ascii("fordefi:solana:") + (ModeText(Auto) + [COLON] + (ChainText(Mainnet) + [COLON]));
    assert FordefiPreimage(Terms(Auto, Mainnet, v, None), [COLON]) == head + v + [COLON] + [COLON] + [COLON];
    assert FordefiPreimage(Terms(Auto, Mainnet, v + [COLON], None), []) == head + v + [COLON] + [COLON] + [COLON];
  }

  /** Without the pipe-free condition the rendering is not injective. */
  lemma {:induction false} PipeInFeeCollides(a: Bytes, b: Bytes)
    ensures CanonicalFee(Some(Custom(Some(a + [PIPE] + b), None))) ==
      CanonicalFee(Some(Custom(Some(a), Some(b + [PIPE]))))
  {
    assert (a + [PIPE] + b) + [PIPE] + [] == a + [PIPE] + (b + [PIPE]);
  }

  /** A text with one delimiter splits at it in one way. */
  lemma {:induction false} OneDelimiter(x: Bytes, xs: Bytes, y: Bytes, ys: Bytes, d: byte)
    requires x + [d] + xs == y + [d] + ys
    requires d !in x && d !in xs
    ensures x == y && xs == ys
  {
    var whole := x + [d] + xs;
    assert whole[|y|] == d;
    assert x == whole[..|x|] && y == whole[..|y|];
    assert xs == whole[|x| + 1..] && ys == whole[|y| + 1..];
  }

  lemma {:induction false} PipeFreeFeeIsNamed(f: Option<Fee>, g: Option<Fee>)
    requires FeeFree(f, PIPE) && CanonicalFee(f) == CanonicalFee(g)
    ensures SameFee(f, g)
  {
    if f.Some? && g.Some? && f.value.Custom? && g.value.Custom? {
      var u1, p1 := OrEmpty(f.value.unitPrice), OrEmpty(f.value.priorityFee);
      var u2, p2 := OrEmpty(g.value.unitPrice), OrEmpty(g.value.priorityFee);
      SameHead(Ascii("custom") + [PIPE], [PIPE] + (u1 + [PIPE] + p1), [PIPE] + (u2 + [PIPE] + p2));
      SameHead([PIPE], u1 + [PIPE] + p1, u2 + [PIPE] + p2);
      OneDelimiter(u1, p1, u2, p2, PIPE);
    } else if f.Some? && g.Some? && f.value.Custom? != g.value.Custom? {
      KindsDiffer(f.value, g.value);
    } else {
      CanonicalFeeInjective(f, g);
    }
  }

  /** A pipe in a fee string moves the boundary: the part before it can be taken for the whole unit price. */
  lemma {:induction false} PipedFeeHasADouble(f: Option<Fee>) returns (g: Option<Fee>)
    requires !FeeFree(f, PIPE)
    ensures CanonicalFee(f) == CanonicalFee(g) && !SameFee(f, g)
  {
    var u, p := OrEmpty(f.value.unitPrice), OrEmpty(f.value.priorityFee);
    if PIPE in u {
      var i :| 0 <= i < |u| && u[i] == PIPE;
      g := Some(Custom(Some(u[..i]), Some(u[i + 1..] + [PIPE] + p)));
      assert u + [PIPE] + p == u[..i] + [PIPE] + (u[i + 1..] + [PIPE] + p);
    } else {
      var i :| 0 <= i < |p| && p[i] == PIPE;
      g := Some(Custom(Some(u + [PIPE] + p[..i]), Some(p[i + 1..])));
      assert u + [PIPE] + p == (u + [PIPE] + p[..i]) + [PIPE] + p[i + 1..];
    }
  }

  /** The rendering of a fee names it, among all fees, exactly when its own strings are pipe-free. */
  lemma {:induction false} FeeIsNamedIffPipeFree(f: Option<Fee>)
    ensures FeeFree(f, PIPE) <==> forall g :: CanonicalFee(f) == CanonicalFee(g) ==> SameFee(f, g)
  {
    if FeeFree(f, PIPE) {
      forall g | CanonicalFee(f) == CanonicalFee(g)
        ensures SameFee(f, g)
      {
        PipeFreeFeeIsNamed(f, g);
      }
    } else {
      var g := PipedFeeHasADouble(f);
    }
  }

  // ---- the key itself ----

  function HexDigit(n: nat): char
    requires n < 16
  {
    if n < 10 then (48 + n) as char else (87 + n) as char
  }

  function Hex(bytes: Bytes): (r: string)
    ensures |r| == 2 * |bytes|
  {
    seq(2 * |bytes|, i requires 0 <= i < 2 * |bytes| =>
      if i % 2 == 0 then HexDigit(bytes[i / 2] / 16) else HexDigit(bytes[i / 2] % 16))
  }

  /** The first 16 digest bytes with the version nibble and the variant bits overwritten. */
  function UuidBytes(d: Digest): (r: Bytes)
    ensures |r| == 16
  {
    seq(16, i requires 0 <= i < 16 => if i == 6 then 0x40 + d[6] % 16 else if i == 8 then 0x80 + d[8] % 64 else d[i])
  }

  function FormatUuid(b: Bytes): (r: string)
    requires |b| == 16
    ensures |r| == 36
  {
    var hex := Hex(b);
    hex[0..8] + "-" + hex[8..12] + "-" + hex[12..16] + "-" + hex[16..20] + "-" + hex[20..32]
  }

  /** `idempotency_key_from_message` */
  function KeyOf(prim: Primitives, preimage: Bytes): string {
    FormatUuid(UuidBytes(prim.sha256(preimage)))
  }

  lemma {:induction false} HexInjective(a: Bytes, b: Bytes)
    requires Hex(a) == Hex(b)
    ensures a == b
  {
    assert |a| == |b|;
    forall i | 0 <= i < |a|
      ensures a[i] == b[i]
    {
      assert Hex(a)[2 * i] == Hex(b)[2 * i] && Hex(a)[2 * i + 1] == Hex(b)[2 * i + 1];
      assert HexDigit(a[i] / 16) == HexDigit(b[i] / 16) && HexDigit(a[i] % 16) == HexDigit(b[i] % 16);
    }
  }

  lemma {:induction false} FormatUuidInjective(a: Bytes, b: Bytes)
    requires |a| == 16 && |b| == 16
    requires FormatUuid(a) == FormatUuid(b)
    ensures a == b
  {
    UndashedFormat(a);
    UndashedFormat(b);
    HexInjective(a, b);
  }

  /** Two digests give one key exactly when they agree on 122 of their first 128 bits. */
  lemma {:induction false} SameKeyIffSame122Bits(d: Digest, e: Digest)
    ensures FormatUuid(UuidBytes(d)) == FormatUuid(UuidBytes(e)) <==>
            forall i :: 0 <= i < 16 ==>
              if i == 6 then d[i] % 16 == e[i] % 16 else if i == 8 then d[i] % 64 == e[i] % 64 else d[i] == e[i]
  {
    if FormatUuid(UuidBytes(d)) == FormatUuid(UuidBytes(e)) {
      FormatUuidInjective(UuidBytes(d), UuidBytes(e));
      forall i | 0 <= i < 16
        ensures if i == 6 then d[i] % 16 == e[i] % 16 else if i == 8 then d[i] % 64 == e[i] % 64 else d[i] == e[i]
      {
        assert UuidBytes(d)[i] == UuidBytes(e)[i];
      }
    }
    if forall i :: 0 <= i < 16 ==>
         if i == 6 then d[i] % 16 == e[i] % 16 else if i == 8 then d[i] % 64 == e[i] % 64 else d[i] == e[i] {
      assert UuidBytes(d) == UuidBytes(e);
    }
  }

  /** Every key is a well-formed version-4 UUID of the RFC 9562 variant. */
  lemma {:induction false} KeyIsVersion4(d: Digest)
    ensures var k := FormatUuid(UuidBytes(d));
      && k[8] == k[13] == k[18] == k[23] == '-'
      && k[14] == '4'
      && k[19] in {'8', '9', 'a', 'b'}
  {
    var hex, k := Hex(UuidBytes(d)), FormatUuid(UuidBytes(d));
    assert k[14] == hex[12] == HexDigit(UuidBytes(d)[6] / 16);
    assert k[19] == hex[16] == HexDigit(UuidBytes(d)[8] / 16);
  }

  // ---- the bytes spelled out ----

  const HEX_DIGITS := "0123456789abcdef"

  /** `text` spells byte `b` at `i`, in two lower-case hex digits. */
  predicate SpellsByte(text: string, i: nat, b: byte) {
    i + 1 < |text| && text[i] == HEX_DIGITS[b / 16] && text[i + 1] == HEX_DIGITS[b % 16]
  }

  lemma {:induction false} HexSpells(bytes: Bytes, i: nat)
    requires i < |bytes|
    ensures SpellsByte(Hex(bytes), 2 * i, bytes[i])
  {
    HexDigitIsItsPlace(bytes[i] / 16);
    HexDigitIsItsPlace(bytes[i] % 16);
    assert 2 * i / 2 == i && (2 * i + 1) / 2 == i && (2 * i + 1) % 2 == 1;
  }

  lemma {:induction false} HexDigitIsItsPlace(n: nat)
    requires n < 16
    ensures HexDigit(n) == HEX_DIGITS[n]
  {
  }

  /** The 32 digits of a dashed key. */
  function Undashed(key: string): string
    requires |key| == 36
  {
    key[0..8] + key[9..13] + key[14..18] + key[19..23] + key[24..36]
  }

  lemma {:induction false} UndashedFormat(b: Bytes)
    requires |b| == 16
    ensures Undashed(FormatUuid(b)) == Hex(b)
  {
    var hex, key := Hex(b), FormatUuid(b);
    assert key[0..8] == hex[0..8] && key[9..13] == hex[8..12] && key[14..18] == hex[12..16];
    assert key[19..23] == hex[16..20] && key[24..36] == hex[20..32];
    assert hex == hex[0..8] + hex[8..12] + hex[12..16] + hex[16..20] + hex[20..32];
  }

  /**
   A key spells the first sixteen digest bytes in order, two digits a byte; byte 6 keeps its low four bits under the
   version, byte 8 its low six bits under the variant.
   */
  lemma {:induction false} KeySpellsTheDigest(prim: Primitives, preimage: Bytes, i: nat)
    requires i < 16
    ensures |KeyOf(prim, preimage)| == 36
    ensures var d := prim.sha256(preimage);
      SpellsByte(Undashed(KeyOf(prim, preimage)), 2 * i,
                 if i == 6 then 0x40 + d[6] % 16 else if i == 8 then 0x80 + d[8] % 64 else d[i])
  {
    var d := prim.sha256(preimage);
    UndashedFormat(UuidBytes(d));
    HexSpells(UuidBytes(d), i);
  }

  lemma {:induction false} DecimalHasNoLeadingZero(n: nat)
    ensures |Decimal(n)| > 1 ==> Decimal(n)[0] != 48
  {
    if n >= 10 {
      DecimalHasNoLeadingZero(n / 10);
      assert Decimal(n)[0] == Decimal(n / 10)[0];
    }
  }

  /** The Crossmint pre-image: its name, the length of the locator in plain decimal, the locator, the message. */
  lemma {:induction false} CrossmintPreimageSpelled(locator: Option<Bytes>, message: Bytes) returns (digits: Bytes)
    ensures digits != [] && (forall i :: 0 <= i < |digits| ==> '0' as int <= digits[i] <= '9' as int)
    ensures DecimalValue(digits) == |OrEmpty(locator)| && (|digits| > 1 ==> digits[0] != '0' as int)
    ensures CrossmintPreimage(locator, message)
         == Ascii("crossmint:solana:") + digits + Ascii(":") + OrEmpty(locator) + Ascii(":") + message
  {
    digits := Decimal(|OrEmpty(locator)|);
    DecimalRoundTrip(|OrEmpty(locator)|);
    DecimalHasNoLeadingZero(|OrEmpty(locator)|);
    assert Ascii(":") == [COLON];
  }

  /** The Fordefi pre-image: its name, the mode, the chain, the vault, the fee, the message. */
  lemma {:induction false} FordefiPreimageSpelled(t: Terms, message: Bytes)
    ensures FordefiPreimage(t, message)
         == Ascii("fordefi:solana:") + Ascii(if t.mode == Auto then "auto" else "manual") + Ascii(":")
            + Ascii(if t.chain == Devnet then "solana_devnet" else "solana_mainnet") + Ascii(":")
            + t.vault + Ascii(":") + CanonicalFee(t.fee) + Ascii(":") + message
  {
    assert Ascii(":") == [COLON];
    PreimageParts(t, message);
    Regrouped(Ascii("fordefi:solana:"), ModeText(t.mode), ChainText(t.chain), t.vault, CanonicalFee(t.fee), message);
  }

  lemma {:induction false} Regrouped(a: Bytes, b: Bytes, c: Bytes, d: Bytes, e: Bytes, f: Bytes)
    ensures a + (b + [COLON] + (c + [COLON] + (d + [COLON] + (e + [COLON] + f))))
         == a + b + [COLON] + c + [COLON] + d + [COLON] + e + [COLON] + f
  {
  }

  /** The rendering of every kind of fee. */
  lemma {:induction false} CanonicalFeeSpelled(u: Option<Bytes>, p: Option<Bytes>, level: PriorityLevel)
    ensures CanonicalFee(None) == []
    ensures CanonicalFee(Some(Custom(u, p))) == Ascii("custom") + Ascii("||") + OrEmpty(u) + Ascii("|") + OrEmpty(p)
    ensures CanonicalFee(Some(Priority(level)))
         == Ascii("priority") + Ascii("|")
            + Ascii(match level case Low => "low" case Medium => "medium" case High => "high") + Ascii("||")
  {
    assert Ascii("|") == [PIPE] && Ascii("||") == [PIPE] + [PIPE];
  }
}
