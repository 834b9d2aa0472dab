/**
 Assembling an Ed25519 signature from its r and s components, left-padding the ones a provider stripped.
 */
module HexComponents {
  import opened Core

  /** The big-endian number a byte string spells. */
  function Value(b: Bytes): nat {
    if b == [] then 0 else Value(b[..|b| - 1]) * 256 + b[|b| - 1]
  }

  function LeftPad(b: Bytes): (r: Bytes)
    requires |b| <= 32
    ensures |r| == 32
  {
    Zeros(32 - |b|) + b
  }

  /**
   `SignatureFromHexComponents` after hex decoding: both halves are copied into a zeroed array at computed
   offsets.
   */
  method SignatureFromComponents(r: Bytes, s: Bytes, pad: bool) returns (result: Result<Signature, SignerError>)
    ensures result.Ok? <==> if pad then |r| <= 32 && |s| <= 32 else |r| == 32 && |s| == 32
    ensures result.Ok? ==> result.value == LeftPad(r) + LeftPad(s)
    ensures result.Err? ==> result.error == SigningFailed(BadSignatureLength)
  {
    if pad {
      if |r| > 32 || |s| > 32 {
        return Err(SigningFailed(BadSignatureLength));
      }
    } else if |r| != 32 || |s| != 32 {
      return Err(SigningFailed(BadSignatureLength));
    }
    var sig := new byte[64](_ => 0);
    Copy(sig, 32 - |r|, r);
    Copy(sig, 64 - |s|, s);
    assert sig[..] == LeftPad(r) + LeftPad(s);
    result := Ok(sig[..]);
  }

  method Copy(target: array<byte>, offset: nat, source: Bytes)
    requires offset + |source| <= target.Length
    modifies target
    ensures forall i :: 0 <= i < target.Length ==>
      target[i] == if offset <= i < offset + |source| then source[i - offset] else old(target[i])
  {
    for i := 0 to |source|
      invariant forall j :: 0 <= j < target.Length ==>
        target[j] == if offset <= j < offset + i then source[j - offset] else old(target[j])
    {
      target[offset + i] := source[i];
    }
  }

  lemma {:induction false} ZerosAreNothing(k: nat, b: Bytes)
    ensures Value(Zeros(k) + b) == Value(b)
    decreases |b|, k
  {
    if b != [] {
      assert (Zeros(k) + b)[..k + |b| - 1] == Zeros(k) + b[..|b| - 1];
      ZerosAreNothing(k, b[..|b| - 1]);
    } else if k > 0 {
      assert (Zeros(k) + b)[..k - 1] == Zeros(k - 1) + [];
      ZerosAreNothing(k - 1, []);
    }
  }

  /** Padding keeps each component's number, in its own half. */
  lemma {:induction false} PaddingKeepsTheNumbers(r: Bytes, s: Bytes)
    requires |r| <= 32 && |s| <= 32
    ensures var sig := LeftPad(r) + LeftPad(s);
      |sig| == 64 && Value(sig[..32]) == Value(r) && Value(sig[32..]) == Value(s)
  {
    var sig := LeftPad(r) + LeftPad(s);
    assert sig[..32] == LeftPad(r) && sig[32..] == LeftPad(s);
    PaddedValue(r);
    PaddedValue(s);
  }

  /** Bytes of a given length are determined by their number. */
  lemma {:induction false} ValueInjective(a: Bytes, b: Bytes)
    requires |a| == |b| && Value(a) == Value(b)
    ensures a == b
  {
    if a != [] {
      var x, y := Value(a[..|a| - 1]), Value(b[..|b| - 1]);
      assert x == Value(a) / 256 == Value(b) / 256 == y;
      ValueInjective(a[..|a| - 1], b[..|b| - 1]);
      assert a == a[..|a| - 1] + [a[|a| - 1]] && b == b[..|b| - 1] + [b[|b| - 1]];
    }
  }

  /** Two component pairs assemble to one signature exactly when they spell the same two numbers. */
  lemma {:induction false} SameSignatureIffSameNumbers(r1: Bytes, s1: Bytes, r2: Bytes, s2: Bytes)
    requires |r1| <= 32 && |s1| <= 32 && |r2| <= 32 && |s2| <= 32
    ensures LeftPad(r1) + LeftPad(s1) == LeftPad(r2) + LeftPad(s2) <==> Value(r1) == Value(r2) && Value(s1) == Value(s2)
  {
    SamePaddedIffSameNumber(r1, r2);
    SamePaddedIffSameNumber(s1, s2);
    HalvesSplit(LeftPad(r1), LeftPad(s1), LeftPad(r2), LeftPad(s2));
  }

  lemma {:induction false} SamePaddedIffSameNumber(a: Bytes, b: Bytes)
    requires |a| <= 32 && |b| <= 32
    ensures LeftPad(a) == LeftPad(b) <==> Value(a) == Value(b)
  {
    PaddedValue(a);
    PaddedValue(b);
    if Value(a) == Value(b) {
      ValueInjective(LeftPad(a), LeftPad(b));
    }
  }

  lemma {:induction false} PaddedValue(b: Bytes)
    requires |b| <= 32
    ensures Value(LeftPad(b)) == Value(b)
  {
    ZerosAreNothing(32 - |b|, b);
  }

  lemma {:induction false} HalvesSplit(a: Bytes, b: Bytes, c: Bytes, d: Bytes)
    requires |a| == |c|
    ensures a + b == c + d <==> a == c && b == d
  {
    if a + b == c + d {
      assert a == (a + b)[..|a|] && c == (c + d)[..|a|];
      assert b == (a + b)[|a|..] && d == (c + d)[|a|..];
    }
  }
}
