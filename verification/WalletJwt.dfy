/**
 The request hash of the wallet JWT: the digest of the sorted and printed body. The text that gets hashed identifies
 the body, up to object key order.
 */
module WalletJwt {
  import opened Core
  import opened CanonicalJson
  import opened JsonText
  import Idempotency

  /** The text that gets hashed; nothing is hashed for an absent, null or empty-object body. */
  function HashedText(body: Option<Json>): Option<string> {
    if body.None? || body.value.Null? || body.value == Object([]) then None
    else Some(Render(Serde, SortJson(body.value)))
  }

  /** `compute_req_hash`; `digest` is SHA-256 over the UTF-8 form of a text. */
  function ComputeReqHash(digest: string -> Digest, body: Option<Json>): Option<string> {
    match HashedText(body)
    case None => None
    case Some(text) => Some(Idempotency.Hex(digest(text)))
  }

  predicate GoodBody(body: Option<Json>) {
    body.Some? ==> WellFormed(body.value) && LiteralsOk(body.value)
  }

  /** Nothing to bind to: an absent body, a null, or an object without members. */
  predicate NothingToHash(body: Option<Json>) {
    body in {None, Some(Json.Null), Some(Object([]))}
  }

  /**
   What the token binds to: nothing exactly for an absent, null or empty-object body, and otherwise the lower-case hex
   of the digest of a text that reads back as the body with its keys in ascending order.
   */
  lemma {:induction false} ReqHashBindsTheBody(digest: string -> Digest, body: Option<Json>)
    requires GoodBody(body)
    ensures ComputeReqHash(digest, body).None? <==> NothingToHash(body)
    ensures !NothingToHash(body) ==>
      exists text, v :: && ComputeReqHash(digest, body) == Some(Idempotency.Hex(digest(text)))
                        && ReadValue(text) == Some((v, "")) && KeysAscend(v) && SameUpToOrder(body.value, v)
  {
    if !NothingToHash(body) {
      var v := SortJson(body.value);
      var text := Render(Serde, v);
      SortedKeysAscend(body.value);
      SortOnlyReorders(body.value);
      SortKeepsLiterals(body.value);
      RenderReadsBack(Serde, v, "");
      assert text + "" == text;
      assert ComputeReqHash(digest, body) == Some(Idempotency.Hex(digest(text)));
      assert ReadValue(text) == Some((v, ""));
    }
  }

  /** Two bodies the hash does not tell apart: both bind to nothing, or they differ only in key order. */
  ghost predicate SameRequestBody(a: Option<Json>, b: Option<Json>) {
    || (NothingToHash(a) && NothingToHash(b))
    || (!NothingToHash(a) && !NothingToHash(b) && SameUpToOrder(a.value, b.value))
  }

  /** The hashed bytes identify the body. */
  lemma {:induction false} HashedTextIdentifies(a: Option<Json>, b: Option<Json>)
    requires GoodBody(a) && GoodBody(b)
    ensures HashedText(a) == HashedText(b) <==> SameRequestBody(a, b)
  {
    if HashedText(a).Some? && HashedText(b).Some? {
      SortedTextIdentifies(Serde, a.value, b.value);
    }
  }

  /** With a digest free of collisions on these two texts, so does the hash in the token. */
  lemma {:induction false} ReqHashIdentifies(digest: string -> Digest, a: Option<Json>, b: Option<Json>)
    requires GoodBody(a) && GoodBody(b)
    requires HashedText(a).Some? && HashedText(b).Some? ==>
               (digest(HashedText(a).value) == digest(HashedText(b).value) ==> HashedText(a) == HashedText(b))
    ensures ComputeReqHash(digest, a) == ComputeReqHash(digest, b) <==> SameRequestBody(a, b)
  {
    HashedTextIdentifies(a, b);
    if HashedText(a).Some? && HashedText(b).Some? && ComputeReqHash(digest, a) == ComputeReqHash(digest, b) {
      Idempotency.HexInjective(digest(HashedText(a).value), digest(HashedText(b).value));
    }
  }
}
