/**
 Values shared by every signer backend: byte strings, keys, signatures, the error type,
 and the foreign code (cryptography, codecs, wire format) the client only calls.
 */
module Core {
  datatype Option<+T> = None | Some(value: T)

  datatype Result<+T, +E> = Ok(value: T) | Err(error: E)

  type byte = b: int | 0 <= b < 256

  type Bytes = seq<byte>

  type Signature = s: Bytes | |s| == 64 witness seq(64, _ => 0)

  type Pubkey = k: Bytes | |k| == 32 witness seq(32, _ => 0)

  type Digest = d: Bytes | |d| == 32 witness seq(32, _ => 0)

  function Zeros(n: nat): (r: Bytes)
    ensures |r| == n && forall i :: 0 <= i < n ==> r[i] == 0
  {
    seq(n, _ => 0)
  }

  /** `Signature::default()`: the value of a slot nobody has signed yet. */
  const DEFAULT_SIGNATURE: Signature := Zeros(64)

  /** The distinct failures the clients report, one constructor each; how a client words them is not modelled. */
  datatype Detail =
    | NotInitialized | NoBaseUrl | NoSend | NoCapability
    | CannotSerialize | CannotDeserialize | BadBase58 | BadBase64 | BadSignatureLength
    | TransportFailed | BodyUnreadable | RemoteStatus | RemoteMessage | MissingField | BadJson | BlankId
    | NotEnoughKeys | NotASigner | SlotMissing | NotVerified | NoFeePayerSignature | NoAccountKeys
    | ProviderFailed | NeedsApproval | NoPendingMessage | PollTimeout | PollCancelled | NothingToExtract | BadTxId
    | NotSoleSigner | AlreadySigned | NotFeePayer | MissingRawTransaction | TerminalState
    | StillPartial | NoBroadcastSignature | BatchCancelled | ReconcileFirst

  datatype SignerError =
    | InvalidPublicKey(detail: Detail)
    | SigningFailed(detail: Detail)
    | RemoteApiError(detail: Detail, pendingTxId: Option<string>)
    | HttpError(detail: Detail)
    | SerializationError(detail: Detail)
    | ConfigError(detail: Detail)
    | Other(detail: Detail)
    | BroadcastUnconfirmed(
        providerTxId: Option<string>,
        providerStatus: Option<nat>,
        idempotencyKey: Option<string>,
        transactionSignature: Option<Signature>,
        detail: Detail)

  /** A response status that rules the create out: a 4xx other than 408 (Request Timeout). */
  predicate Refused(status: nat) {
    400 <= status < 500 && status != 408
  }

  /** `unconfirmed_unless_rejected`: classifies a failed create. */
  function UnconfirmedUnlessRejected(
      status: Option<nat>, providerTxId: Option<string>, key: Option<string>, error: SignerError): SignerError
  {
    if status.Some? && Refused(status.value) then error
    else BroadcastUnconfirmed(providerTxId,
                              if status.Some? && status.value >= 400 then status else None,
                              key, None, error.detail)
  }

  /** The part of a transaction a signature covers. */
  datatype Message = Message(numRequired: byte, accountKeys: seq<Pubkey>, payload: Bytes)

  datatype Tx = Tx(message: Message, signatures: seq<Signature>)

  /**
   Foreign code, passed in as arbitrary total functions. Nothing is assumed about any of them
   unless a lemma says so in its `requires`.
   */
  datatype Primitives = Primitives(
    verifies: (Signature, Pubkey, Bytes) -> bool,
    sign: (Bytes, Bytes) -> Signature,
    sha256: Bytes -> Digest,
    messageBytes: Message -> Bytes,
    encodeTx: Tx -> Option<Bytes>,
    decodeTx: Bytes -> Option<Tx>,
    base58: string -> Option<Bytes>,
    base64: string -> Option<Bytes>)

  /** What the client can observe of a string-valued JSON field. */
  datatype Field = Missing | Null | NotText | Text(text: string)

  /** `unicode.IsSpace` and the White_Space property behind `str::trim`. */
  predicate IsSpace(c: char) {
    var n := c as int;
    0x09 <= n <= 0x0d || n == 0x20 || n == 0x85 || n == 0xa0 || n == 0x1680 || 0x2000 <= n <= 0x200a
    || n == 0x2028 || n == 0x2029 || n == 0x202f || n == 0x205f || n == 0x3000
  }

  function TrimLeft(s: string): (r: string)
    ensures |r| <= |s|
  {
    if s != "" && IsSpace(s[0]) then TrimLeft(s[1..]) else s
  }

  function TrimRight(s: string): (r: string)
    ensures |r| <= |s|
  {
    if s != "" && IsSpace(s[|s| - 1]) then TrimRight(s[..|s| - 1]) else s
  }

  /** `str::trim` and `strings.TrimSpace` */
  function Trim(s: string): string {
    TrimRight(TrimLeft(s))
  }

  /** `s.trim().is_empty()` */
  predicate Blank(s: string) {
    forall i :: 0 <= i < |s| ==> IsSpace(s[i])
  }

  /**
   A provider or a caller-supplied sender: an arbitrary function of everything that was asked
   of it so far, the current question included, together with the record of what was asked.
   */
  class Channel<E, R> {
    const answer: seq<E> -> R
    var log: seq<E>

    constructor (answer: seq<E> -> R)
      ensures this.answer == answer && log == []
    {
      this.answer := answer;
      log := [];
    }

    method Ask(event: E) returns (reply: R)
      modifies this`log
      ensures log == old(log) + [event] && reply == answer(log)
    {
      log := log + [event];
      reply := answer(log);
    }

    /** Records an event nobody answers, such as a sleep. */
    method Note(event: E)
      modifies this`log
      ensures log == old(log) + [event]
    {
      log := log + [event];
    }
  }
}
